/** What splitting a text into lines does, told by its characters. */
module LineSplitting {
  import opened Basics

  lemma SpaceByCodePoint(c: char)
    ensures IsLineBreak(c) <==> (10 <= c as int <= 13 || 28 <= c as int <= 30 || c as int in {133, 8232, 8233})
    ensures IsSpace(c)
      <==> || 9 <= c as int <= 13 || 28 <= c as int <= 32 || 8192 <= c as int <= 8202
           || c as int in {133, 160, 5760, 8232, 8233, 8239, 8287, 12288}
  {
  }

  /** What ends a line before the given rest of the text: a carriage return with the newline behind it, or one of
      the line-breaking characters; a carriage return alone only before anything but a newline. */
  predicate Ends(lineBreak: string, rest: string) {
    || lineBreak == "\r\n"
    || (|lineBreak| == 1 && IsLineBreak(lineBreak[0])
        && (lineBreak[0] == '\r' ==> rest == "" || rest[0] != '\n'))
  }

  predicate WithoutBreak(line: string) {
    forall i :: 0 <= i < |line| ==> !IsLineBreak(line[i])
  }

  /** The lines are those of the text: each ends with a line break, but the last one may do without if it is not
      empty. */
  ghost predicate LinesOf(text: string, lines: seq<string>)
    decreases |lines|
  {
    if lines == [] then text == ""
    else
      && WithoutBreak(lines[0])
      && ((|lines| == 1 && text == lines[0] != "")
          || exists lineBreak, rest ::
               text == lines[0] + (lineBreak + rest) && Ends(lineBreak, rest) && LinesOf(rest, lines[1..]))
  }

  lemma LineLengthIs(text: string, n: nat)
    requires n <= |text| && WithoutBreak(text[..n]) && (n < |text| ==> IsLineBreak(text[n]))
    ensures LineLength(text) == n
  {
  }

  /** The characters of the break that starts at n. */
  function BreakLength(text: string, n: nat): (k: nat)
    requires n < |text|
    ensures n + k <= |text|
  {
    if text[n] == '\r' && n + 1 < |text| && text[n + 1] == '\n' then 2 else 1
  }

  lemma BreakEnds(text: string, n: nat)
    requires n < |text| && IsLineBreak(text[n])
    ensures var k := BreakLength(text, n);
            Ends(text[n..n + k], text[n + k..])
  {
  }

  lemma BreakLengthIs(line: string, lineBreak: string, rest: string)
    requires Ends(lineBreak, rest)
    ensures BreakLength(line + (lineBreak + rest), |line|) == |lineBreak|
  {
    var text := line + (lineBreak + rest);
    assert text[|line|] == lineBreak[0];
    if |lineBreak| == 2 {
      assert text[|line| + 1] == lineBreak[1];
    } else if rest != "" {
      assert text[|line| + 1] == rest[0];
    }
  }

  lemma SplitAt(text: string, n: nat, line: string, rest: string)
    requires n < |text| && WithoutBreak(text[..n]) && IsLineBreak(text[n])
    requires line == text[..n] && rest == text[n + BreakLength(text, n)..]
    ensures SplitLines(text) == [line] + SplitLines(rest)
  {
    LineLengthIs(text, n);
  }

  lemma Pieces(line: string, lineBreak: string, rest: string, text: string)
    requires text == line + (lineBreak + rest) && lineBreak != ""
    ensures text[|line|] == lineBreak[0] && text[..|line|] == line && text[|line| + |lineBreak|..] == rest
  {
  }

  lemma FirstLine(line: string, lineBreak: string, rest: string, text: string)
    requires text == line + (lineBreak + rest) && WithoutBreak(line) && Ends(lineBreak, rest)
    ensures SplitLines(text) == [line] + SplitLines(rest)
  {
    Pieces(line, lineBreak, rest, text);
    BreakLengthIs(line, lineBreak, rest);
    SplitAt(text, |line|, line, rest);
  }

  lemma OnlyLine(line: string)
    requires WithoutBreak(line) && line != ""
    ensures SplitLines(line) == [line]
  {
    assert line[..|line|] == line;
    LineLengthIs(line, |line|);
  }

  lemma OneMoreLine(text: string, n: nat, k: nat, lines: seq<string>)
    requires n + k <= |text| && WithoutBreak(text[..n]) && Ends(text[n..n + k], text[n + k..])
    requires LinesOf(text[n + k..], lines)
    ensures LinesOf(text, [text[..n]] + lines)
  {
    assert text == text[..n] + (text[n..n + k] + text[n + k..]);
    assert ([text[..n]] + lines)[1..] == lines;
  }

  lemma {:induction false} SplitIsLinesOf(text: string)
    ensures LinesOf(text, SplitLines(text))
    decreases |text|
  {
    if text != "" {
      var n := LineLength(text);
      if n == |text| {
        OnlyLine(text);
      } else {
        var k := BreakLength(text, n);
        SplitAt(text, n, text[..n], text[n + k..]);
        BreakEnds(text, n);
        SplitIsLinesOf(text[n + k..]);
        OneMoreLine(text, n, k, SplitLines(text[n + k..]));
      }
    }
  }

  lemma {:induction false} LinesOfAreSplit(text: string, lines: seq<string>)
    requires LinesOf(text, lines)
    ensures lines == SplitLines(text)
    decreases |lines|
  {
    if lines != [] {
      if |lines| == 1 && text == lines[0] != "" {
        OnlyLine(text);
      } else {
        var lineBreak, rest :|
          text == lines[0] + (lineBreak + rest) && Ends(lineBreak, rest) && LinesOf(rest, lines[1..]);
        FirstLine(lines[0], lineBreak, rest, text);
        LinesOfAreSplit(rest, lines[1..]);
      }
    }
  }

  /** Splitting finds the lines of a text, and a text has no others. */
  lemma SplitLinesIff(text: string, lines: seq<string>)
    ensures LinesOf(text, lines) <==> lines == SplitLines(text)
  {
    SplitIsLinesOf(text);
    if LinesOf(text, lines) {
      LinesOfAreSplit(text, lines);
    }
  }
}
