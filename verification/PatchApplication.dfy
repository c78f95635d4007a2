/** Applying SEARCH/REPLACE blocks to a file: counting matches, substituting, and the guards
    against destructive edits. */
module PatchApplication {
  import opened Basics
  import opened PatchLanguage

  // ---------- Counting matches ----------

  /** All positions at which search matches, overlapping ones included. */
  function Positions(content: string, search: string): set<int> {
    set i | 0 <= i <= |content| && MatchesAt(content, search, i)
  }

  /** content.find(search, start) */
  function Find(content: string, search: string, start: nat): (found: int)
    ensures found < 0 ==> forall i :: start <= i ==> !MatchesAt(content, search, i)
    ensures found >= 0 ==> start <= found && MatchesAt(content, search, found)
    ensures found >= 0 ==> forall i :: start <= i < found ==> !MatchesAt(content, search, i)
    decreases |content| + 1 - start
  {
    if start + |search| > |content| then -1
    else if MatchesAt(content, search, start) then start
    else Find(content, search, start + 1)
  }

  method CountOccurrences(content: string, search: string) returns (count: nat)
    ensures count == |Positions(content, search)|
  {
    count := 0;
    var start := 0;
    ghost var seen: set<int> := {};
    while true
      invariant 0 <= start <= |content| + 1
      invariant seen == set i | 0 <= i <= |content| && i < start && MatchesAt(content, search, i)
      invariant count == |seen|
      decreases |content| + 1 - start
    {
      var found := Find(content, search, start);
      if found < 0 {
        assert Positions(content, search) == seen;
        return;
      }
      count := count + 1;
      seen := seen + {found};
      start := found + 1;
    }
  }

  // ---------- Substitution ----------

  /** The whole of search matches at exactly one position, and there becomes replacement. */
  predicate Rewrites(before: string, b: Block, after: string) {
    exists p :: p in Positions(before, b.search) && RewritesAt(before, b, p, after)
  }

  predicate RewritesAt(before: string, b: Block, p: int, after: string)
    requires MatchesAt(before, b.search, p)
  {
    && Positions(before, b.search) == {p}
    && after == before[..p] + b.replacement + before[p + |b.search|..]
  }

  /** content.replace(search, replacement, 1) for a non-empty search */
  function ReplaceFirst(content: string, b: Block): string {
    var p := Find(content, b.search, 0);
    if p < 0 then content else content[..p] + b.replacement + content[p + |b.search|..]
  }

  lemma {:induction false} SingletonIffUniqueMatch(content: string, search: string)
    ensures |Positions(content, search)| == 1 <==> exists p :: Positions(content, search) == {p}
    ensures |Positions(content, search)| == 0 <==> Positions(content, search) == {}
  {
    var s := Positions(content, search);
    if |s| == 1 {
      var p :| p in s;
      assert |s - {p}| == 0;
      assert s == {p};
    }
  }

  /** With a single match, replacing the first occurrence is the rewriting at that match. */
  lemma ReplaceFirstRewrites(content: string, b: Block)
    requires |Positions(content, b.search)| == 1
    ensures Rewrites(content, b, ReplaceFirst(content, b))
  {
    SingletonIffUniqueMatch(content, b.search);
    var p :| Positions(content, b.search) == {p};
    assert p in Positions(content, b.search);
    assert Find(content, b.search, 0) in Positions(content, b.search);
  }

  lemma RewritingIsAtTheFirst(content: string, b: Block, after: string, p: int)
    requires p in Positions(content, b.search) && RewritesAt(content, b, p, after)
    ensures |Positions(content, b.search)| == 1 && after == ReplaceFirst(content, b)
  {
    assert Find(content, b.search, 0) in Positions(content, b.search);
  }

  /** Rewriting is possible exactly when there is one match, and then has one outcome. */
  lemma RewritesIff(content: string, b: Block, after: string)
    ensures Rewrites(content, b, after)
      <==> |Positions(content, b.search)| == 1 && after == ReplaceFirst(content, b)
  {
    if p :| p in Positions(content, b.search) && RewritesAt(content, b, p, after) {
      RewritingIsAtTheFirst(content, b, after, p);
    }
    if |Positions(content, b.search)| == 1 {
      ReplaceFirstRewrites(content, b);
    }
  }

  /** There is one match exactly when the text splits around search in one way only. */
  lemma OneMatchIffOneSplit(content: string, search: string)
    ensures |Positions(content, search)| == 1
      <==> exists before, after ::
             && content == before + search + after
             && forall i :: MatchesAt(content, search, i) ==> i == |before|
  {
    SingletonIffUniqueMatch(content, search);
    var s := Positions(content, search);
    if |s| == 1 {
      var p :| s == {p};
      assert p in s;
      assert content == content[..p] + search + content[p + |search|..];
      forall i | MatchesAt(content, search, i) ensures i == |content[..p]| {
        assert i in s;
      }
    }
    if exists before, after :: content == before + search + after
         && forall i :: MatchesAt(content, search, i) ==> i == |before| {
      var before, after :| content == before + search + after
                           && forall i :: MatchesAt(content, search, i) ==> i == |before|;
      assert MatchesAt(content, search, |before|);
      assert s == {|before|};
    }
  }

  /** Swapping search and replacement undoes a rewriting whenever the replacement is then unambiguous. */
  lemma RewritingIsReversible(before: string, b: Block, after: string)
    requires Rewrites(before, b, after)
    requires |Positions(after, b.replacement)| == 1
    ensures Rewrites(after, Block(b.replacement, b.search), before)
  {
    var p :| p in Positions(before, b.search) && RewritesAt(before, b, p, after);
    assert MatchesAt(after, b.replacement, p);
    SingletonIffUniqueMatch(after, b.replacement);
    assert p in Positions(after, b.replacement);
    assert after[..p] == before[..p];
    assert after[p + |b.replacement|..] == before[p + |b.search|..];
    assert before == after[..p] + b.search + after[p + |b.replacement|..];
    assert RewritesAt(after, Block(b.replacement, b.search), p, before);
  }

  // ---------- The guards ----------

  const DESTRUCTIVE_MIN_LINES := 30
  const DESTRUCTIVE_MIN_CHARS := 400

  function NewlineCount(s: string): nat {
    if s == "" then 0 else (if s[0] == '\n' then 1 else 0) + NewlineCount(s[1..])
  }

  /** The block covers at least 70% of a non-trivial file's lines and halves the text it replaces. */
  predicate DestructiveBlock(content: string, b: Block) {
    var currentLines := NewlineCount(content) + 1;
    var searchLines := NewlineCount(b.search) + 1;
    && currentLines >= DESTRUCTIVE_MIN_LINES
    && 10 * searchLines >= 7 * currentLines
    && 2 * |b.replacement| < |b.search|
  }

  /** The places from k on at which a text has a newline. */
  function Newlines(s: string, k: nat): set<int> {
    set i | k <= i < |s| && s[i] == '\n'
  }

  lemma {:induction false} NewlineCountIs(s: string, k: nat)
    requires k <= |s|
    ensures NewlineCount(s[k..]) == |Newlines(s, k)|
    decreases |s| - k
  {
    if k == |s| {
      assert Newlines(s, k) == {};
    } else {
      NewlineCountIs(s, k + 1);
      assert s[k..][1..] == s[k + 1..];
      assert Newlines(s, k) == Newlines(s, k + 1) + if s[k] == '\n' then {k} else {};
    }
  }

  /** In a file of 30 lines or more, the block's search text has at least 70% of the lines, and its replacement
      less than half of the characters. */
  predicate GutsTheFile(content: string, b: Block) {
    && |Newlines(content, 0)| >= 29
    && 10 * (|Newlines(b.search, 0)| + 1) >= 7 * (|Newlines(content, 0)| + 1)
    && |b.replacement| + |b.replacement| < |b.search|
  }

  lemma DestructiveIff(content: string, b: Block)
    ensures DestructiveBlock(content, b) <==> GutsTheFile(content, b)
  {
    NewlineCountIs(content, 0);
    NewlineCountIs(b.search, 0);
    assert content[0..] == content && b.search[0..] == b.search;
  }

  /** A file of at least 400 characters would lose more than 40% of them. */
  predicate DestructiveShrink(content: string, updated: string) {
    |content| >= DESTRUCTIVE_MIN_CHARS && 10 * |updated| < 6 * |content|
  }

  // ---------- Applying a response ----------

  datatype PatchError =
    | Unparsable(error: ParseError)
    | NotFound(block: nat)
    | Ambiguous(block: nat, matches: nat)
    | TooBroad(block: nat)
    | ShrinksTooMuch

  datatype PatchResult = Applied(text: string) | Rejected(error: PatchError)

  /** The blocks applied left to right to the text so far; index is the number of the first one. */
  function Fold(content: string, blocks: seq<Block>, index: nat): PatchResult
    decreases |blocks|
  {
    if blocks == [] then Applied(content)
    else
      var b := blocks[0];
      var matches := |Positions(content, b.search)|;
      if matches == 0 then Rejected(NotFound(index))
      else if matches != 1 then Rejected(Ambiguous(index, matches))
      else if DestructiveBlock(content, b) then Rejected(TooBroad(index))
      else Fold(ReplaceFirst(content, b), blocks[1..], index + 1)
  }

  function PatchText(content: string, modelOutput: string): PatchResult {
    match ParseLines(SplitLines(modelOutput))
    case Malformed(e) => Rejected(Unparsable(e))
    case Parsed(blocks) =>
      match Fold(content, blocks, 1)
      case Rejected(e) => Rejected(e)
      case Applied(updated) =>
        if DestructiveShrink(content, updated) then Rejected(ShrinksTooMuch) else Applied(updated)
  }

  /** A file on disk. */
  class TextFile {
    var text: string

    constructor (text: string)
      ensures this.text == text
    {
      this.text := text;
    }

    /** Either the whole response is applied, or the file is left alone. */
    method ApplySearchReplaceBlocks(modelOutput: string) returns (result: PatchResult)
      modifies this
      ensures result == PatchText(old(text), modelOutput)
      ensures text == if result.Applied? then result.text else old(text)
    {
      var parsed := ParseSearchReplaceBlocks(modelOutput);
      if parsed.Malformed? {
        return Rejected(Unparsable(parsed.error));
      }
      var blocks := parsed.blocks;
      var content := text;
      var updated := content;
      var k := 0;
      while k < |blocks|
        invariant 0 <= k <= |blocks|
        invariant text == old(text)
        invariant Fold(content, blocks, 1) == Fold(updated, blocks[k..], k + 1)
      {
        var b := blocks[k];
        var matchCount := CountOccurrences(updated, b.search);
        if matchCount != 1 {
          return Rejected(if matchCount == 0 then NotFound(k + 1) else Ambiguous(k + 1, matchCount));
        }
        if DestructiveBlock(updated, b) {
          return Rejected(TooBroad(k + 1));
        }
        updated := ReplaceFirst(updated, b);
        k := k + 1;
      }
      // Net deletions are rejected before the file is touched.
      if DestructiveShrink(content, updated) {
        return Rejected(ShrinksTooMuch);
      }
      text := updated;
      return Applied(updated);
    }
  }

  // ---------- What application means ----------

  /** The blocks take content to final, each rewriting the single match in the text before it. */
  ghost predicate RewritesAll(content: string, blocks: seq<Block>, final: string)
    decreases |blocks|
  {
    if blocks == [] then final == content
    else
      exists next ::
        && Rewrites(content, blocks[0], next)
        && !GutsTheFile(content, blocks[0])
        && RewritesAll(next, blocks[1..], final)
  }

  lemma {:induction false} FoldMeansRewritingAll(content: string, blocks: seq<Block>, index: nat, final: string)
    ensures Fold(content, blocks, index) == Applied(final) <==> RewritesAll(content, blocks, final)
    decreases |blocks|
  {
    if blocks != [] {
      var b, next := blocks[0], ReplaceFirst(content, blocks[0]);
      DestructiveIff(content, b);
      FoldMeansRewritingAll(next, blocks[1..], index + 1, final);
      forall after ensures Rewrites(content, b, after)
          <==> |Positions(content, b.search)| == 1 && after == next {
        RewritesIff(content, b, after);
      }
    }
  }

  /** Success means exactly this: the response parses, its blocks rewrite one match each in turn, none of them guts
      the file, and of 400 characters or more at least 60% are kept. */
  lemma PatchAppliesIff(content: string, modelOutput: string, final: string)
    ensures PatchText(content, modelOutput) == Applied(final)
      <==> var parsed := ParseLines(SplitLines(modelOutput));
           && parsed.Parsed?
           && RewritesAll(content, parsed.blocks, final)
           && (|content| >= 400 ==> 10 * |final| >= 6 * |content|)
  {
    var parsed := ParseLines(SplitLines(modelOutput));
    if parsed.Parsed? {
      FoldMeansRewritingAll(content, parsed.blocks, 1, final);
    }
  }

  function LengthChange(blocks: seq<Block>): int {
    if blocks == [] then 0
    else |blocks[0].replacement| - |blocks[0].search| + LengthChange(blocks[1..])
  }

  lemma {:induction false} RewritingAllChangesLength(content: string, blocks: seq<Block>, final: string)
    requires RewritesAll(content, blocks, final)
    ensures |final| == |content| + LengthChange(blocks)
    decreases |blocks|
  {
    if blocks != [] {
      var next :| Rewrites(content, blocks[0], next) && RewritesAll(next, blocks[1..], final);
      var p :| p in Positions(content, blocks[0].search) && RewritesAt(content, blocks[0], p, next);
      RewritingAllChangesLength(next, blocks[1..], final);
    }
  }

  /** The new length is the old one plus what each block adds or removes; large files keep 60%. */
  lemma PatchedLength(content: string, modelOutput: string)
    requires PatchText(content, modelOutput).Applied?
    ensures var final := PatchText(content, modelOutput).text;
            && |final| == |content| + LengthChange(ParseLines(SplitLines(modelOutput)).blocks)
            && (|content| >= 400 ==> 10 * |final| >= 6 * |content|)
  {
    var final := PatchText(content, modelOutput).text;
    PatchAppliesIff(content, modelOutput, final);
    RewritingAllChangesLength(content, ParseLines(SplitLines(modelOutput)).blocks, final);
  }

  /** The reason for which a block cannot be applied to a text. */
  ghost predicate FailsWith(text: string, b: Block, number: nat, error: PatchError) {
    var matches := |Positions(text, b.search)|;
    && error == (if matches == 0 then NotFound(number)
                 else if matches > 1 then Ambiguous(number, matches)
                 else TooBroad(number))
    && (error.TooBroad? ==> GutsTheFile(text, b))
  }

  lemma FirstBlockFails(content: string, blocks: seq<Block>, index: nat)
    requires blocks != [] && Fold(content, blocks, index).Rejected?
    requires |Positions(content, blocks[0].search)| != 1 || DestructiveBlock(content, blocks[0])
    ensures FailsWith(content, blocks[0], index, Fold(content, blocks, index).error)
  {
    DestructiveIff(content, blocks[0]);
  }

  lemma FirstBlockApplies(content: string, blocks: seq<Block>, k: nat, reached: string)
    requires 0 < k <= |blocks| && |Positions(content, blocks[0].search)| == 1 && !DestructiveBlock(content, blocks[0])
    requires RewritesAll(ReplaceFirst(content, blocks[0]), blocks[1..][..k - 1], reached)
    ensures RewritesAll(content, blocks[..k], reached)
  {
    DestructiveIff(content, blocks[0]);
    ReplaceFirstRewrites(content, blocks[0]);
    assert blocks[..k][0] == blocks[0] && blocks[..k][1..] == blocks[1..][..k - 1];
  }

  /** An error about block k means the k-1 blocks before it applied and gave the text it failed on. */
  lemma {:induction false} FoldErrorNamesTheBlock(content: string, blocks: seq<Block>, index: nat)
    returns (k: nat, reached: string)
    requires Fold(content, blocks, index).Rejected?
    ensures k < |blocks| && RewritesAll(content, blocks[..k], reached)
    ensures FailsWith(reached, blocks[k], index + k, Fold(content, blocks, index).error)
    decreases |blocks|
  {
    if |Positions(content, blocks[0].search)| == 1 && !DestructiveBlock(content, blocks[0]) {
      k, reached := FoldErrorNamesTheBlock(ReplaceFirst(content, blocks[0]), blocks[1..], index + 1);
      k := k + 1;
      FirstBlockApplies(content, blocks, k, reached);
    } else {
      k, reached := 0, content;
      FirstBlockFails(content, blocks, index);
    }
  }
}
