/** Small shared vocabulary: optional values, duplicate-free lists, and the Python string helpers
    that several parts of the orchestrator rely on. */
module Basics {

  datatype Option<+T> = None | Some(value: T)

  function Max(a: int, b: int): (m: int)
    ensures m >= a && m >= b && (m == a || m == b)
  {
    if a >= b then a else b
  }

  function Min(a: int, b: int): (m: int)
    ensures m <= a && m <= b && (m == a || m == b)
  {
    if a <= b then a else b
  }

  predicate NoDuplicates<T(==)>(s: seq<T>) {
    forall i, j :: 0 <= i < j < |s| ==> s[i] != s[j]
  }

  /** The list kept by the "append unless already present" loops: first occurrences, in order. */
  function Distinct<T(==,!new)>(s: seq<T>): (r: seq<T>)
    ensures NoDuplicates(r)
    ensures forall x :: x in r <==> x in s
    ensures |r| <= |s|
  {
    if s == [] then []
    else
      var r := Distinct(s[..|s| - 1]);
      var last := s[|s| - 1];
      assert s == s[..|s| - 1] + [last];
      if last in r then r else r + [last]
  }

  /** Position of the first occurrence of x. */
  function FirstPosition<T(==)>(s: seq<T>, x: T): (i: nat)
    requires x in s
    ensures i < |s| && s[i] == x
    ensures forall k :: 0 <= k < i ==> s[k] != x
  {
    if s[0] == x then 0 else 1 + FirstPosition(s[1..], x)
  }

  /** First occurrences come out in the order in which they went in. */
  lemma {:induction false} DistinctKeepsOrder<T(!new)>(s: seq<T>, i: nat, j: nat)
    requires i < j < |Distinct(s)|
    ensures FirstPosition(s, Distinct(s)[i]) < FirstPosition(s, Distinct(s)[j])
  {
    var shorter := s[..|s| - 1];
    var last := s[|s| - 1];
    assert s == shorter + [last];
    var r := Distinct(shorter);
    FirstPositionOfPrefix(shorter, last, Distinct(s)[i]);
    if j < |r| {
      DistinctKeepsOrder(shorter, i, j);
      FirstPositionOfPrefix(shorter, last, Distinct(s)[j]);
    }
  }

  lemma FirstPositionOfPrefix<T>(s: seq<T>, last: T, x: T)
    requires x in s
    ensures FirstPosition(s + [last], x) == FirstPosition(s, x)
  {
    assert (s + [last])[FirstPosition(s, x)] == x;
  }

  // ---------- Strings, as Python sees them ----------

  /** The characters at which str.splitlines breaks a line. */
  predicate IsLineBreak(c: char) {
    c in {'\n', '\r', '\U{b}', '\U{c}', '\U{1c}', '\U{1d}', '\U{1e}', '\U{85}', '\U{2028}', '\U{2029}'}
  }

  /** The characters removed by str.strip. */
  predicate IsSpace(c: char) {
    || IsLineBreak(c)
    || c in {'\t', ' ', '\U{1f}', '\U{a0}', '\U{1680}', '\U{202f}', '\U{205f}', '\U{3000}'}
    || '\U{2000}' <= c <= '\U{200a}'
  }

  function StripLeft(s: string): string {
    if s != "" && IsSpace(s[0]) then StripLeft(s[1..]) else s
  }

  function StripRight(s: string): string {
    if s != "" && IsSpace(s[|s| - 1]) then StripRight(s[..|s| - 1]) else s
  }

  function Strip(s: string): string {
    StripRight(StripLeft(s))
  }

  predicate MatchesAt(text: string, part: string, i: int) {
    0 <= i && i + |part| <= |text| && text[i..i + |part|] == part
  }

  predicate Contains(text: string, part: string) {
    exists i :: 0 <= i <= |text| && MatchesAt(text, part, i)
  }

  /** "\n".join(lines) */
  function JoinLines(lines: seq<string>): string {
    if lines == [] then ""
    else if |lines| == 1 then lines[0]
    else lines[0] + "\n" + JoinLines(lines[1..])
  }

  /** Length of the first line of text, not counting its line break. */
  function LineLength(text: string): (n: nat)
    ensures n <= |text|
    ensures forall i :: 0 <= i < n ==> !IsLineBreak(text[i])
    ensures n < |text| ==> IsLineBreak(text[n])
  {
    if text == "" || IsLineBreak(text[0]) then 0 else 1 + LineLength(text[1..])
  }

  /** str.splitlines: a carriage return directly followed by a newline is one break. */
  function SplitLines(text: string): seq<string>
    decreases |text|
  {
    if text == "" then []
    else
      var n := LineLength(text);
      if n == |text| then [text]
      else
        var skip := if text[n] == '\r' && n + 1 < |text| && text[n + 1] == '\n' then 2 else 1;
        [text[..n]] + SplitLines(text[n + skip..])
  }
}
