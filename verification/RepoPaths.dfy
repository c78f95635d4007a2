/** The normal form of repository paths. */
module RepoPaths {

  /** path.replace("\\", "/") */
  function ForwardSlashes(path: string): (r: string)
    ensures |r| == |path| && forall i :: 0 <= i < |r| ==> r[i] == if path[i] == '\\' then '/' else path[i]
  {
    seq(|path|, i requires 0 <= i < |path| => if path[i] == '\\' then '/' else path[i])
  }

  /** POSIX keeps exactly two leading slashes apart from one; three or more count as one. */
  function Root(s: string): string {
    if s == "" || s[0] != '/' then ""
    else if |s| >= 2 && s[1] == '/' && !(|s| >= 3 && s[2] == '/') then "//"
    else "/"
  }

  function FirstSlash(s: string): (n: nat)
    ensures n <= |s|
    ensures forall i :: 0 <= i < n ==> s[i] != '/'
    ensures n < |s| ==> s[n] == '/'
  {
    if s == "" || s[0] == '/' then 0 else 1 + FirstSlash(s[1..])
  }

  /** The parts of a path; empty ones and "." do not count. */
  function Parts(s: string): (parts: seq<string>)
    ensures forall part :: part in parts ==>
              part != "" && part != "." && forall c :: c in part ==> c != '/' && c in s
    decreases |s|
  {
    var n := FirstSlash(s);
    var later := if n == |s| then [] else Parts(s[n + 1..]);
    if n == 0 || (n == 1 && s[0] == '.') then later else [s[..n]] + later
  }

  function JoinParts(parts: seq<string>): string {
    if parts == [] then ""
    else if |parts| == 1 then parts[0]
    else parts[0] + ("/" + JoinParts(parts[1..]))
  }

  /** Path(s).as_posix() */
  function AsPosix(s: string): string {
    if Root(s) == "" && Parts(s) == [] then "." else Root(s) + JoinParts(Parts(s))
  }

  function DropDotSlash(s: string): string {
    if |s| >= 2 && s[0] == '.' && s[1] == '/' then DropDotSlash(s[2..]) else s
  }

  function NormalizeRepoPath(path: string): string {
    DropDotSlash(AsPosix(ForwardSlashes(path)))
  }

  // ---------- Normalizing twice ----------

  predicate IsPart(part: string) {
    part != "" && part != "." && forall i :: 0 <= i < |part| ==> part[i] != '/' && part[i] != '\\'
  }

  predicate AreParts(parts: seq<string>) {
    forall k :: 0 <= k < |parts| ==> IsPart(parts[k])
  }

  predicate NoBackslash(s: string) {
    forall i :: 0 <= i < |s| ==> s[i] != '\\'
  }

  lemma PartsAreParts(s: string)
    requires NoBackslash(s)
    ensures AreParts(Parts(s))
  {
    forall k | 0 <= k < |Parts(s)| ensures IsPart(Parts(s)[k]) {
      assert Parts(s)[k] in Parts(s);
    }
  }

  lemma {:induction false} JoinHasNoBackslash(parts: seq<string>)
    requires AreParts(parts)
    ensures NoBackslash(JoinParts(parts))
    ensures parts != [] ==> JoinParts(parts) != "" && JoinParts(parts)[0] != '/'
    ensures !(|JoinParts(parts)| >= 2 && JoinParts(parts)[0] == '.' && JoinParts(parts)[1] == '/')
  {
    if |parts| > 1 {
      assert IsPart(parts[0]);
      JoinHasNoBackslash(parts[1..]);
      assert |parts[0]| == 1 ==> parts[0] == [parts[0][0]];
    } else if |parts| == 1 {
      assert IsPart(parts[0]);
    }
  }

  lemma FirstSlashIs(s: string, n: nat)
    requires n <= |s| && (forall i :: 0 <= i < n ==> s[i] != '/') && (n < |s| ==> s[n] == '/')
    ensures FirstSlash(s) == n
  {
  }

  lemma PartsOfPart(part: string)
    requires IsPart(part)
    ensures Parts(part) == [part]
  {
    FirstSlashIs(part, |part|);
    assert part[..|part|] == part;
    assert |part| == 1 ==> part == [part[0]];
  }

  lemma PartsOfGlued(part: string, tail: string, glued: string)
    requires IsPart(part) && glued == part + ("/" + tail)
    ensures Parts(glued) == [part] + Parts(tail)
  {
    FirstSlashIs(glued, |part|);
    assert glued[..|part|] == part;
    assert glued[|part| + 1..] == tail;
    assert |part| == 1 ==> part == [part[0]] && glued[0] == part[0];
  }

  lemma {:induction false} PartsOfJoin(parts: seq<string>)
    requires AreParts(parts)
    ensures Parts(JoinParts(parts)) == parts
  {
    if |parts| == 1 {
      PartsOfPart(parts[0]);
    } else if |parts| > 1 {
      PartsOfGlued(parts[0], JoinParts(parts[1..]), JoinParts(parts));
      PartsOfJoin(parts[1..]);
    }
  }

  lemma PartsAfterRoot(s: string)
    ensures Parts("/" + s) == Parts(s)
  {
    assert ("/" + s)[1..] == s;
  }

  lemma PosixKeepsRootAndParts(s: string)
    requires NoBackslash(s)
    ensures Root(AsPosix(s)) == Root(s) && Parts(AsPosix(s)) == Parts(s) && NoBackslash(AsPosix(s))
    ensures DropDotSlash(AsPosix(s)) == AsPosix(s)
  {
    var parts, root := Parts(s), Root(s);
    PartsAreParts(s);
    JoinHasNoBackslash(parts);
    PartsOfJoin(parts);
    var body := JoinParts(parts);
    if root == "/" {
      PartsAfterRoot(body);
      assert parts == [] ==> Root(root + body) == "/";
    } else if root == "//" {
      PartsAfterRoot(body);
      PartsAfterRoot("/" + body);
      assert "/" + ("/" + body) == root + body;
    } else if parts != [] {
      assert root + body == body;
    }
  }

  /** A normalized path is its own normal form. */
  lemma NormalizeTwice(path: string)
    ensures NormalizeRepoPath(NormalizeRepoPath(path)) == NormalizeRepoPath(path)
  {
    var s := ForwardSlashes(path);
    PosixKeepsRootAndParts(s);
    var r := AsPosix(s);
    PosixKeepsRootAndParts(r);
    assert ForwardSlashes(r) == r;
  }

  /** Two paths have the same normal form exactly when they have the same root and the same parts. */
  lemma SameNormalForm(a: string, b: string)
    ensures NormalizeRepoPath(a) == NormalizeRepoPath(b)
      <==> Root(ForwardSlashes(a)) == Root(ForwardSlashes(b)) && Parts(ForwardSlashes(a)) == Parts(ForwardSlashes(b))
  {
    PosixKeepsRootAndParts(ForwardSlashes(a));
    PosixKeepsRootAndParts(ForwardSlashes(b));
  }

  /** A plain file name is its own normal form, with or without "./" before it. */
  lemma LeadingDotSlash(name: string)
    requires IsPart(name)
    ensures NormalizeRepoPath(name) == name && NormalizeRepoPath("./" + name) == name
  {
    var dotted := "./" + name;
    assert ForwardSlashes(name) == name && ForwardSlashes(dotted) == dotted;
    PartsOfPart(name);
    FirstSlashIs(dotted, 1);
    assert dotted[2..] == name;
    assert Parts(dotted) == [name];
    assert AsPosix(name) == name && AsPosix(dotted) == name;
  }

  // ---------- Root and parts, told by the characters ----------

  /** Two slashes at the start, and not three, are a root of their own. */
  lemma RootByPrefix(s: string)
    ensures Root(s) == "//" <==> "//" <= s && !("///" <= s)
    ensures Root(s) == "/" <==> "/" <= s && ("//" <= s ==> "///" <= s)
    ensures Root(s) == "" <==> !("/" <= s)
  {
  }

  /** A text without a slash is one part, unless it is empty or a dot. */
  lemma PartsOfOne(s: string)
    requires '/' !in s
    ensures Parts(s) == if s == "" || s == "." then [] else [s]
  {
    FirstSlashIs(s, |s|);
    assert s[..|s|] == s;
    assert |s| == 1 ==> s == [s[0]];
  }

  lemma PartsAfterDot(s: string)
    ensures Parts("./" + s) == Parts(s)
  {
    var t := "./" + s;
    FirstSlashIs(t, 1);
    assert t[2..] == s;
  }

  lemma PartsAfterPiece(piece: string, s: string)
    requires '/' !in piece && piece != "" && piece != "."
    ensures Parts(piece + ("/" + s)) == [piece] + Parts(s)
  {
    var t, n := piece + ("/" + s), |piece|;
    FirstSlashIs(t, n);
    assert t[..n] == piece && t[n + 1..] == s;
    assert n == 1 ==> piece == [t[0]];
  }

  lemma PartsPrefixed(piece: string, s: string)
    requires '/' !in piece
    ensures Parts(piece + ("/" + s)) == Parts(piece) + Parts(s)
  {
    PartsOfOne(piece);
    if piece == "" {
      assert piece + ("/" + s) == "/" + s;
      PartsAfterRoot(s);
    } else if piece == "." {
      assert piece + ("/" + s) == "./" + s;
      PartsAfterDot(s);
    } else {
      PartsAfterPiece(piece, s);
    }
  }

  lemma CutAtSlash(x: string, y: string, n: nat)
    requires n < |x| && x[n] == '/'
    ensures x == x[..n] + ("/" + x[n + 1..])
    ensures x + ("/" + y) == x[..n] + ("/" + (x[n + 1..] + ("/" + y)))
  {
  }

  lemma PutTogether(parts: string -> seq<string>, piece: string, rest: string, tail: string, y: string, x: string,
                    s: string)
    requires parts(x) == parts(piece) + parts(rest) && parts(tail) == parts(rest) + parts(y)
    requires parts(s) == parts(piece) + parts(tail)
    ensures parts(s) == parts(x) + parts(y)
  {
  }

  lemma PartsOfBoth(piece: string, rest: string, tail: string, y: string)
    requires '/' !in piece && Parts(tail) == Parts(rest) + Parts(y)
    ensures Parts(piece + ("/" + tail)) == Parts(piece + ("/" + rest)) + Parts(y)
  {
    PartsPrefixed(piece, rest);
    PartsPrefixed(piece, tail);
    PutTogether(Parts, piece, rest, tail, y, piece + ("/" + rest), piece + ("/" + tail));
  }

  /** At a slash, the parts of both sides are put together. */
  lemma {:induction false} PartsAtSlash(x: string, y: string)
    ensures Parts(x + ("/" + y)) == Parts(x) + Parts(y)
    decreases |x|
  {
    var n := FirstSlash(x);
    if n < |x| {
      CutAtSlash(x, y, n);
      PartsAtSlash(x[n + 1..], y);
      PartsOfBoth(x[..n], x[n + 1..], x[n + 1..] + ("/" + y), y);
    } else {
      PartsPrefixed(x, y);
    }
  }

  lemma PartsBehindRoot(root: string, body: string)
    requires root in {"", "/", "//"}
    ensures Parts(root + body) == Parts(body)
    ensures body == "" || body[0] != '/' ==> Root(root + body) == root
  {
    var path := root + body;
    RootByPrefix(path);
    if root == "/" {
      PartsAfterRoot(body);
    } else if root == "//" {
      PartsAfterRoot(body);
      PartsAfterRoot("/" + body);
      assert "/" + ("/" + body) == path;
    } else {
      assert path == body;
    }
    assert body != "" ==> path[|root|] == body[0];
  }

  /** Parts with single slashes between them, behind one of the three roots, are as they should be. */
  lemma CanonicalPathStays(root: string, parts: seq<string>)
    requires root in {"", "/", "//"} && AreParts(parts)
    ensures var path := root + JoinParts(parts);
            NormalizeRepoPath(path) == if path == "" then "." else path
  {
    var body := JoinParts(parts);
    var path := root + body;
    JoinHasNoBackslash(parts);
    PartsOfJoin(parts);
    PosixKeepsRootAndParts(path);
    PartsBehindRoot(root, body);
    assert ForwardSlashes(path) == path;
  }
}
