/** Which lines are markers, told by their characters, and what that means for the text between them. */
module MarkerLines {
  import opened Basics
  import opened PatchLanguage
  import opened PatchRoundTrip

  predicate AllSpace(s: string) {
    forall i :: 0 <= i < |s| ==> IsSpace(s[i])
  }

  /** Seven equals signs, with nothing but white space around them. */
  ghost predicate DividerLine(line: string) {
    exists a, b :: AllSpace(a) && AllSpace(b) && line == a + "=======" + b
  }

  /** Seven arrows first, behind white space at most, and the keyword anywhere behind them. */
  ghost predicate OpeningLine(line: string) {
    exists a, u, v :: AllSpace(a) && line == a + ("<<<<<<<" + u + ("SEARCH" + v))
  }

  ghost predicate ClosingLine(line: string) {
    exists a, u, v :: AllSpace(a) && line == a + (">>>>>>>" + u + ("REPLACE" + v))
  }

  // ---------- Stripping ----------

  lemma {:induction false} StripLeftSplits(s: string) returns (a: string)
    ensures AllSpace(a) && s == a + StripLeft(s)
  {
    if s != "" && IsSpace(s[0]) {
      var later := StripLeftSplits(s[1..]);
      a := [s[0]] + later;
      assert s == [s[0]] + s[1..];
    } else {
      a := "";
    }
  }

  lemma {:induction false} StripRightSplits(s: string) returns (b: string)
    ensures AllSpace(b) && s == StripRight(s) + b
  {
    if s != "" && IsSpace(s[|s| - 1]) {
      var earlier := StripRightSplits(s[..|s| - 1]);
      b := earlier + [s[|s| - 1]];
      assert s == s[..|s| - 1] + [s[|s| - 1]];
    } else {
      b := "";
    }
  }

  lemma StripSplits(line: string) returns (a: string, b: string)
    ensures AllSpace(a) && AllSpace(b) && line == a + Strip(line) + b
  {
    a := StripLeftSplits(line);
    b := StripRightSplits(StripLeft(line));
    assert a + (Strip(line) + b) == a + Strip(line) + b;
  }

  lemma {:induction false} StripLeftOfPadded(a: string, s: string)
    requires AllSpace(a) && s != "" && !IsSpace(s[0])
    ensures StripLeft(a + s) == s
  {
    if a == "" {
      assert a + s == s;
    } else {
      assert (a + s)[1..] == a[1..] + s;
      StripLeftOfPadded(a[1..], s);
    }
  }

  /** Stripping does not go beyond a character that is no white space. */
  lemma {:induction false} StripRightStops(s: string, v: string) returns (kept: string)
    requires s != "" && !IsSpace(s[|s| - 1])
    ensures StripRight(s + v) == s + kept && (AllSpace(v) ==> kept == "")
    decreases |v|
  {
    if v != "" && IsSpace(v[|v| - 1]) {
      assert (s + v)[..|s + v| - 1] == s + v[..|v| - 1];
      kept := StripRightStops(s, v[..|v| - 1]);
    } else {
      kept := v;
      assert v == "" ==> s + v == s;
    }
  }

  // ---------- The exact conditions ----------

  lemma DividerIff(line: string)
    ensures MARKERS.divides(line) <==> DividerLine(line)
  {
    if MARKERS.divides(line) {
      var a, b := StripSplits(line);
    }
    if a, b :| AllSpace(a) && AllSpace(b) && line == a + "=======" + b {
      assert line == a + ("=======" + b);
      StripLeftOfPadded(a, "=======" + b);
      var kept := StripRightStops("=======", b);
    }
  }

  /** A line with these arrows and this keyword in its stripped text has them in the line. */
  lemma UnstripMarker(line: string, arrows: string, word: string) returns (a: string, u: string, v: string)
    requires arrows <= Strip(line) && Contains(Strip(line), word)
    requires word != "" && forall i :: 0 <= i < |arrows| ==> arrows[i] !in word
    ensures AllSpace(a) && line == a + (arrows + u + (word + v))
  {
    var s := Strip(line);
    var b;
    a, b := StripSplits(line);
    var i :| 0 <= i <= |s| && MatchesAt(s, word, i);
    assert s[i] == word[0];
    assert i >= |arrows|;
    u, v := s[|arrows|..i], s[i + |word|..] + b;
    assert s == arrows + u + (word + s[i + |word|..]);
    assert line == a + (s + b);
  }

  lemma StripMarker(a: string, arrows: string, u: string, word: string, v: string)
    requires AllSpace(a) && arrows != "" && !IsSpace(arrows[0]) && word != "" && !IsSpace(word[|word| - 1])
    ensures var line := a + (arrows + u + (word + v));
            arrows <= Strip(line) && Contains(Strip(line), word)
  {
    var x := arrows + u + word;
    var line := a + (arrows + u + (word + v));
    assert arrows + u + (word + v) == x + v;
    StripLeftOfPadded(a, x + v);
    var kept := StripRightStops(x, v);
    assert Strip(line) == x + kept;
    assert MatchesAt(x + kept, word, |arrows + u|);
  }

  lemma OpeningIff(line: string)
    ensures MARKERS.opens(line) <==> OpeningLine(line)
  {
    if MARKERS.opens(line) {
      var a, u, v := UnstripMarker(line, "<<<<<<<", "SEARCH");
    }
    if a, u, v :| AllSpace(a) && line == a + ("<<<<<<<" + u + ("SEARCH" + v)) {
      StripMarker(a, "<<<<<<<", u, "SEARCH", v);
    }
  }

  lemma ClosingIff(line: string)
    ensures MARKERS.closes(line) <==> ClosingLine(line)
  {
    if MARKERS.closes(line) {
      var a, u, v := UnstripMarker(line, ">>>>>>>", "REPLACE");
    }
    if a, u, v :| AllSpace(a) && line == a + (">>>>>>>" + u + ("REPLACE" + v)) {
      StripMarker(a, ">>>>>>>", u, "REPLACE", v);
    }
  }

  // ---------- What the format carries ----------

  /** The answer with one block as the prompt asks for it. */
  function OneBlock(search: string, replacement: string): string {
    "<<<<<<< SEARCH\n" + (search + "\n=======\n" + (replacement + "\n>>>>>>> REPLACE"))
  }

  /** The text can stand in a block. */
  ghost predicate Carried(search: string, replacement: string) {
    && search != "" && OnlyNewlineBreaks(search) && OnlyNewlineBreaks(replacement)
    && (forall i :: 0 <= i < |NewlineSplit(search)| ==> !DividerLine(NewlineSplit(search)[i]))
    && (forall i :: 0 <= i < |NewlineSplit(replacement)| ==> !ClosingLine(NewlineSplit(replacement)[i]))
  }

  /** A block parses to itself exactly when its search text is not empty and has no line of seven equals signs,
      its replacement has no closing line, and both break at newlines only. */
  lemma OneBlockParsesIff(search: string, replacement: string)
    ensures ParseLines(SplitLines(OneBlock(search, replacement))) == Parsed([Block(search, replacement)])
      <==> Carried(search, replacement)
  {
    var b := Block(search, replacement);
    PromptStyleIsValid();
    BlockRoundTripsIff(PROMPT_STYLE, b);
    PromptPrints(b);
    forall i | 0 <= i < |NewlineSplit(search)| {
      DividerIff(NewlineSplit(search)[i]);
    }
    forall i | 0 <= i < |NewlineSplit(replacement)| {
      ClosingIff(NewlineSplit(replacement)[i]);
    }
  }

  lemma PromptPrints(b: Block)
    ensures PrintBlock(PROMPT_STYLE, b) == OneBlock(b.search, b.replacement)
  {
    var nl := ['\n'];
    assert "<<<<<<< SEARCH" + nl == "<<<<<<< SEARCH\n" && "\n=======\n" == nl + ("=======" + nl);
    assert "\n>>>>>>> REPLACE" == nl + ">>>>>>> REPLACE";
    Regroup(b.search, nl, "=======" + nl, b.replacement, ">>>>>>> REPLACE");
  }

  lemma Regroup(s: string, nl: string, divider: string, r: string, close: string)
    ensures s + nl + (divider + (r + nl + close)) == s + (nl + divider) + (r + (nl + close))
  {
    assert s + nl + (divider + (r + nl + close)) == s + (nl + divider) + (r + nl + close);
    assert r + nl + close == r + (nl + close);
  }

  /** A line of n equals signs. */
  function Rule(n: nat): string {
    seq(n, _ => '=')
  }

  lemma PartsOfRule(n: nat, a: string, m: string, b: string)
    requires Rule(n) == a + m + b
    ensures (a != "" ==> a[0] == '=') && (m != "" ==> m[0] == '=') && (b != "" ==> b[0] == '=')
  {
    var line := Rule(n);
    assert a != "" ==> line[0] == a[0];
    assert m != "" ==> line[|a|] == m[0];
    assert b != "" ==> line[|a + m|] == b[0];
  }

  /** Only the line of seven equals signs is a divider; a longer or shorter one is text. */
  lemma RuleDividesIff(n: nat)
    ensures DividerLine(Rule(n)) <==> n == 7
    ensures !ClosingLine(Rule(n)) && OneLine(Rule(n)) && '\n' !in Rule(n)
  {
    var line := Rule(n);
    if a, b :| AllSpace(a) && AllSpace(b) && line == a + "=======" + b {
      PartsOfRule(n, a, "=======", b);
    }
    if n == 7 {
      assert line == "=======";
      assert AllSpace("") && line == "" + "=======" + "";
    }
    if a, u, v :| AllSpace(a) && line == a + (">>>>>>>" + u + ("REPLACE" + v)) {
      PartsOfRule(n, a, ">>>>>>>" + u + ("REPLACE" + v), "");
    }
  }

  /** Headings underlined with eight or more equals signs can be searched for and put in. */
  lemma UnderlinesSurvive(above: string, below: string, n: nat)
    requires OneLine(above) && OneLine(below) && !DividerLine(above) && !ClosingLine(below) && n >= 8
    ensures var search, replacement := above + "\n" + Rule(n), below + "\n" + Rule(n);
            ParseLines(SplitLines(OneBlock(search, replacement))) == Parsed([Block(search, replacement)])
  {
    RuleDividesIff(n);
    Underlined(above, n);
    Underlined(below, n);
    OneBlockParsesIff(above + "\n" + Rule(n), below + "\n" + Rule(n));
  }

  lemma Underlined(heading: string, n: nat)
    requires OneLine(heading)
    ensures NewlineSplit(heading + "\n" + Rule(n)) == [heading, Rule(n)] && OnlyNewlineBreaks(heading + "\n" + Rule(n))
  {
    assert IsLineBreak('\n');
    RuleDividesIff(n);
    SplitOfOneLine(Rule(n));
    SplitOfPrefixedLine(heading, Rule(n));
  }
}
