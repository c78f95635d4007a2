/** Walks and cycles in finite directed graphs. */
module Graphs {
  import opened Basics

  predicate IsWalk(edges: set<(string, string)>, walk: seq<string>) {
    forall i :: 0 <= i < |walk| - 1 ==> (walk[i], walk[i + 1]) in edges
  }

  /** No walk of at least one edge returns to where it began. */
  ghost predicate Acyclic(edges: set<(string, string)>) {
    forall walk: seq<string> :: |walk| >= 2 && IsWalk(edges, walk) ==> walk[0] != walk[|walk| - 1]
  }

  lemma {:induction false} ElementsOfDistinct(s: seq<string>)
    requires NoDuplicates(s)
    ensures |set x | x in s| == |s|
  {
    if s != [] {
      var shorter := s[..|s| - 1];
      ElementsOfDistinct(shorter);
      assert s == shorter + [s[|s| - 1]];
      assert (set x | x in s) == (set x | x in shorter) + {s[|s| - 1]};
    }
  }

  lemma SubsetIsSmaller(a: set<string>, b: set<string>)
    requires a <= b
    ensures |a| <= |b|
  {
    assert b == a + (b - a);
  }

  /** A sequence longer than the set it draws from repeats an element. */
  lemma Pigeonhole(s: seq<string>, nodes: set<string>)
    requires |s| > |nodes| && forall i :: 0 <= i < |s| ==> s[i] in nodes
    ensures !NoDuplicates(s)
  {
    if NoDuplicates(s) {
      ElementsOfDistinct(s);
      SubsetIsSmaller((set x | x in s), nodes);
    }
  }

  ghost predicate HasSuccessor(edges: set<(string, string)>, nodes: set<string>, a: string) {
    exists b :: b in nodes && (a, b) in edges
  }

  ghost predicate NoSink(edges: set<(string, string)>, nodes: set<string>) {
    forall a {:trigger HasSuccessor(edges, nodes, a)} :: a in nodes ==> HasSuccessor(edges, nodes, a)
  }

  lemma {:induction false} LongWalk(edges: set<(string, string)>, nodes: set<string>, n: nat)
    returns (walk: seq<string>)
    requires nodes != {} && NoSink(edges, nodes)
    ensures |walk| == n + 1 && IsWalk(edges, walk) && forall i :: 0 <= i < |walk| ==> walk[i] in nodes
  {
    if n == 0 {
      var a :| a in nodes;
      walk := [a];
    } else {
      walk := LongWalk(edges, nodes, n - 1);
      assert HasSuccessor(edges, nodes, walk[|walk| - 1]);
      var b :| b in nodes && (walk[|walk| - 1], b) in edges;
      walk := walk + [b];
    }
  }

  lemma NoSinkMeansCycle(edges: set<(string, string)>, nodes: set<string>)
    requires nodes != {} && NoSink(edges, nodes)
    ensures !Acyclic(edges)
  {
    var walk := LongWalk(edges, nodes, |nodes|);
    Pigeonhole(walk, nodes);
    var i, j :| 0 <= i < j < |walk| && walk[i] == walk[j];
    var cycle := walk[i..j + 1];
    assert IsWalk(edges, cycle);
    assert |cycle| >= 2 && cycle[0] == cycle[|cycle| - 1];
  }

  /** Every edge leads to an earlier element of the order. */
  ghost predicate Sorts(order: seq<string>, edges: set<(string, string)>) {
    forall a, b :: (a, b) in edges ==>
      b in order && a in order && FirstPosition(order, b) < FirstPosition(order, a)
  }

  lemma {:induction false} WalksDescend(order: seq<string>, edges: set<(string, string)>, walk: seq<string>)
    requires Sorts(order, edges) && IsWalk(edges, walk) && |walk| >= 2
    ensures walk[0] in order && walk[|walk| - 1] in order
    ensures FirstPosition(order, walk[|walk| - 1]) < FirstPosition(order, walk[0])
  {
    assert (walk[0], walk[1]) in edges;
    if |walk| > 2 {
      WalksDescend(order, edges, walk[1..]);
    }
  }

  /** A graph that can be sorted topologically has no cycle. */
  lemma SortedIsAcyclic(order: seq<string>, edges: set<(string, string)>)
    requires Sorts(order, edges)
    ensures Acyclic(edges)
  {
    forall walk: seq<string> | |walk| >= 2 && IsWalk(edges, walk) ensures walk[0] != walk[|walk| - 1] {
      WalksDescend(order, edges, walk);
    }
  }

  // ---------- Renaming nodes ----------

  ghost predicate Endpoint(edges: set<(string, string)>, a: string) {
    exists b :: (a, b) in edges || (b, a) in edges
  }

  /** f keeps the endpoints of edges apart. */
  ghost predicate KeepsApart(edges: set<(string, string)>, f: string -> string) {
    forall a, b :: Endpoint(edges, a) && Endpoint(edges, b) && f(a) == f(b) ==> a == b
  }

  ghost predicate Covered(edges: set<(string, string)>, f: string -> string, x: string, y: string) {
    exists a, b :: (a, b) in edges && f(a) == x && f(b) == y
  }

  /** The renamed edges are exactly the images of the edges. */
  ghost predicate IsImage(edges: set<(string, string)>, f: string -> string, renamed: set<(string, string)>) {
    && (forall a, b :: (a, b) in edges ==> (f(a), f(b)) in renamed)
    && (forall x, y :: (x, y) in renamed ==> Covered(edges, f, x, y))
  }

  function RenameWalk(f: string -> string, walk: seq<string>): (r: seq<string>)
    ensures |r| == |walk| && forall i :: 0 <= i < |walk| ==> r[i] == f(walk[i])
  {
    seq(|walk|, i requires 0 <= i < |walk| => f(walk[i]))
  }

  lemma WalkIsRenamed(edges: set<(string, string)>, f: string -> string, renamed: set<(string, string)>,
                      walk: seq<string>)
    requires IsImage(edges, f, renamed) && IsWalk(edges, walk)
    ensures IsWalk(renamed, RenameWalk(f, walk))
  {
    forall i | 0 <= i < |walk| - 1 ensures (f(walk[i]), f(walk[i + 1])) in renamed {
      assert (walk[i], walk[i + 1]) in edges;
    }
  }

  /** A walk along renamed edges comes from a walk along the original ones. */
  lemma {:induction false} WalkComesFrom(edges: set<(string, string)>, f: string -> string,
                                         renamed: set<(string, string)>, walk: seq<string>)
    returns (original: seq<string>)
    requires IsImage(edges, f, renamed) && KeepsApart(edges, f)
    requires |walk| >= 2 && IsWalk(renamed, walk)
    ensures IsWalk(edges, original) && RenameWalk(f, original) == walk
    ensures Endpoint(edges, original[|walk| - 1])
  {
    var n := |walk|;
    var shorter := walk[..n - 1];
    assert walk == shorter + [walk[n - 1]];
    assert (walk[n - 2], walk[n - 2 + 1]) in renamed;
    var a, b := EdgeComesFrom(edges, f, renamed, walk[n - 2], walk[n - 1]);
    if n == 2 {
      original := [a];
    } else {
      PrefixIsWalk(renamed, walk);
      original := WalkComesFrom(edges, f, renamed, shorter);
      assert f(original[n - 2]) == f(a);
    }
    assert RenameWalk(f, original) == shorter;
    assert RenameWalk(f, original + [b]) == shorter + [f(b)];
    WalkExtends(edges, original, b);
    original := original + [b];
  }

  lemma EdgeComesFrom(edges: set<(string, string)>, f: string -> string, renamed: set<(string, string)>, x: string,
                      y: string)
    returns (a: string, b: string)
    requires IsImage(edges, f, renamed) && (x, y) in renamed
    ensures (a, b) in edges && f(a) == x && f(b) == y && Endpoint(edges, a) && Endpoint(edges, b)
  {
    assert Covered(edges, f, x, y);
    a, b :| (a, b) in edges && f(a) == x && f(b) == y;
  }

  lemma PrefixIsWalk(edges: set<(string, string)>, walk: seq<string>)
    requires walk != [] && IsWalk(edges, walk)
    ensures IsWalk(edges, walk[..|walk| - 1])
  {
    var shorter := walk[..|walk| - 1];
    forall i | 0 <= i < |shorter| - 1 ensures (shorter[i], shorter[i + 1]) in edges {
      assert (walk[i], walk[i + 1]) in edges;
    }
  }

  lemma WalkExtends(edges: set<(string, string)>, walk: seq<string>, b: string)
    requires walk != [] && IsWalk(edges, walk) && (walk[|walk| - 1], b) in edges
    ensures IsWalk(edges, walk + [b])
  {
    var longer := walk + [b];
    forall i | 0 <= i < |longer| - 1 ensures (longer[i], longer[i + 1]) in edges {
      assert i < |walk| - 1 ==> (walk[i], walk[i + 1]) in edges;
    }
  }

  /** Renaming that keeps endpoints apart neither makes nor breaks a cycle. */
  lemma RenamingKeepsCycles(edges: set<(string, string)>, f: string -> string, renamed: set<(string, string)>)
    requires IsImage(edges, f, renamed) && KeepsApart(edges, f)
    ensures Acyclic(edges) <==> Acyclic(renamed)
  {
    if Acyclic(renamed) {
      forall walk: seq<string> | |walk| >= 2 && IsWalk(edges, walk) ensures walk[0] != walk[|walk| - 1] {
        WalkIsRenamed(edges, f, renamed, walk);
        assert RenameWalk(f, walk)[0] != RenameWalk(f, walk)[|walk| - 1];
      }
    }
    if Acyclic(edges) {
      forall walk: seq<string> | |walk| >= 2 && IsWalk(renamed, walk) ensures walk[0] != walk[|walk| - 1] {
        var original := WalkComesFrom(edges, f, renamed, walk);
        assert (original[0], original[1]) in edges;
        assert Endpoint(edges, original[0]);
        assert original[0] != original[|walk| - 1];
      }
    }
  }
}
