/** The file snapshots in a ticket's context, and how they follow the worktree. */
module TargetContext {
  import opened Basics
  import opened Tickets
  import opened RepoPaths

  /** The text files of a worktree, by normalized path. */
  type Tree = map<string, string>

  /** How paths are normalized, and which normalized paths stay inside the worktree. */
  datatype Paths = Paths(norm: string -> string, inside: string -> bool)

  ghost predicate ValidPaths(paths: Paths) {
    forall p {:trigger paths.norm(p)} :: paths.norm(paths.norm(p)) == paths.norm(p)
  }

  function RepositoryPaths(inside: string -> bool): Paths {
    Paths(NormalizeRepoPath, inside)
  }

  lemma RepositoryPathsAreValid(inside: string -> bool)
    ensures ValidPaths(RepositoryPaths(inside))
  {
    forall p ensures NormalizeRepoPath(NormalizeRepoPath(p)) == NormalizeRepoPath(p) {
      NormalizeTwice(p);
    }
  }

  // ---------- Reading a snapshot ----------

  predicate Snapshots(paths: Paths, f: ContextFile, normalized: string) {
    paths.norm(f.path) == normalized
  }

  function FirstSnapshot(paths: Paths, files: seq<ContextFile>, normalized: string): (i: nat)
    ensures i <= |files|
    ensures i < |files| ==> Snapshots(paths, files[i], normalized)
    ensures forall k :: 0 <= k < i ==> !Snapshots(paths, files[k], normalized)
  {
    if files == [] || Snapshots(paths, files[0], normalized) then 0
    else 1 + FirstSnapshot(paths, files[1..], normalized)
  }

  /** What the execution loop takes a target's content to be: the first snapshot's content. */
  function TargetFileContent(paths: Paths, files: seq<ContextFile>, target: string): string {
    var i := FirstSnapshot(paths, files, paths.norm(target));
    if i < |files| then files[i].content else ""
  }

  /** The content of the first snapshot with the target's normalized path, and empty without one. */
  lemma ContentIsTheFirst(paths: Paths, files: seq<ContextFile>, target: string, i: nat)
    requires i <= |files| && forall j :: 0 <= j < i ==> paths.norm(files[j].path) != paths.norm(target)
    requires i < |files| ==> paths.norm(files[i].path) == paths.norm(target)
    ensures TargetFileContent(paths, files, target) == if i < |files| then files[i].content else ""
  {
    var k := FirstSnapshot(paths, files, paths.norm(target));
    assert k < |files| ==> Snapshots(paths, files[k], paths.norm(target));
  }

  // ---------- Refreshing snapshots ----------

  /** Row of the last snapshot of a path, or -1: later snapshots replace earlier ones in the path index. */
  function LastSnapshot(paths: Paths, files: seq<ContextFile>, normalized: string): (i: int)
    ensures -1 <= i < |files|
    ensures i >= 0 ==> Snapshots(paths, files[i], normalized)
    ensures forall k :: i < k < |files| ==> !Snapshots(paths, files[k], normalized)
  {
    if files == [] then -1
    else if Snapshots(paths, files[|files| - 1], normalized) then |files| - 1
    else LastSnapshot(paths, files[..|files| - 1], normalized)
  }

  function RefreshOne(paths: Paths, files: seq<ContextFile>, tree: Tree, target: string): seq<ContextFile> {
    var n := paths.norm(target);
    if !paths.inside(n) || n !in tree then files
    else
      var i := LastSnapshot(paths, files, n);
      if i < 0 then files + [ContextFile(n, tree[n], false)]
      else files[i := ContextFile(files[i].path, tree[n], false)]
  }

  function Refresh(paths: Paths, files: seq<ContextFile>, tree: Tree, targets: seq<string>): seq<ContextFile> {
    if targets == [] then files
    else RefreshOne(paths, Refresh(paths, files, tree, targets[..|targets| - 1]), tree, targets[|targets| - 1])
  }

  /** The index agrees with the list it was built from. */
  ghost predicate Indexes(paths: Paths, files: seq<ContextFile>, byPath: map<string, nat>) {
    forall n :: (n in byPath <==> LastSnapshot(paths, files, n) >= 0)
                && (n in byPath ==> byPath[n] == LastSnapshot(paths, files, n))
  }

  lemma LastSnapshotAfterAppend(paths: Paths, files: seq<ContextFile>, f: ContextFile, n: string)
    ensures LastSnapshot(paths, files + [f], n) ==
      if Snapshots(paths, f, n) then |files| else LastSnapshot(paths, files, n)
  {
    assert (files + [f])[..|files|] == files;
  }

  lemma LastSnapshotAfterUpdate(paths: Paths, files: seq<ContextFile>, i: nat, f: ContextFile, n: string)
    requires i < |files| && f.path == files[i].path
    ensures LastSnapshot(paths, files[i := f], n) == LastSnapshot(paths, files, n)
  {
    var j := LastSnapshot(paths, files, n);
    var k := LastSnapshot(paths, files[i := f], n);
    if j >= 0 {
      assert Snapshots(paths, files[i := f][j], n);
    }
    if k >= 0 {
      assert Snapshots(paths, files[k], n);
    }
  }

  method RefreshTargetContext(paths: Paths, files: seq<ContextFile>, tree: Tree, targets: seq<string>)
    returns (snapshots: seq<ContextFile>)
    requires ValidPaths(paths)
    ensures snapshots == Refresh(paths, files, tree, targets)
  {
    snapshots := files;
    var byPath: map<string, nat> := BuildIndex(paths, files);
    var k := 0;
    while k < |targets|
      invariant 0 <= k <= |targets|
      invariant snapshots == Refresh(paths, files, tree, targets[..k])
      invariant Indexes(paths, snapshots, byPath)
    {
      assert targets[..k + 1][..k] == targets[..k];
      snapshots, byPath := RefreshSnapshot(paths, snapshots, byPath, tree, targets[k]);
      k := k + 1;
    }
    assert targets[..k] == targets;
  }

  method RefreshSnapshot(paths: Paths, files: seq<ContextFile>, index: map<string, nat>, tree: Tree, target: string)
    returns (snapshots: seq<ContextFile>, byPath: map<string, nat>)
    requires ValidPaths(paths) && Indexes(paths, files, index)
    ensures snapshots == RefreshOne(paths, files, tree, target) && Indexes(paths, snapshots, byPath)
  {
    snapshots, byPath := files, index;
    var normalized := paths.norm(target);
    if paths.inside(normalized) && normalized in tree {
      if normalized !in byPath {
        var snapshot := ContextFile(normalized, tree[normalized], false);
        snapshots := snapshots + [snapshot];
        byPath := byPath[normalized := |files|];
        AppendKeepsIndex(paths, files, snapshot, normalized);
      } else {
        var i := byPath[normalized];
        var snapshot := snapshots[i].(content := tree[normalized], truncated := false);
        snapshots := snapshots[i := snapshot];
        UpdateKeepsIndex(paths, files, i, snapshot);
      }
    }
  }

  method BuildIndex(paths: Paths, files: seq<ContextFile>) returns (byPath: map<string, nat>)
    ensures Indexes(paths, files, byPath)
  {
    byPath := map[];
    var k := 0;
    while k < |files|
      invariant 0 <= k <= |files|
      invariant Indexes(paths, files[..k], byPath)
    {
      byPath := byPath[paths.norm(files[k].path) := k];
      AppendKeepsIndex(paths, files[..k], files[k], paths.norm(files[k].path));
      assert files[..k] + [files[k]] == files[..k + 1];
      k := k + 1;
    }
    assert files[..k] == files;
  }

  lemma AppendKeepsIndex(paths: Paths, files: seq<ContextFile>, f: ContextFile, n: string)
    requires paths.norm(f.path) == n
    ensures forall m :: LastSnapshot(paths, files + [f], m) == if m == n then |files| else LastSnapshot(paths, files, m)
  {
    forall m ensures LastSnapshot(paths, files + [f], m) == if m == n then |files| else LastSnapshot(paths, files, m) {
      LastSnapshotAfterAppend(paths, files, f, m);
    }
  }

  lemma UpdateKeepsIndex(paths: Paths, files: seq<ContextFile>, i: nat, f: ContextFile)
    requires i < |files| && f.path == files[i].path
    ensures forall m :: LastSnapshot(paths, files[i := f], m) == LastSnapshot(paths, files, m)
  {
    forall m ensures LastSnapshot(paths, files[i := f], m) == LastSnapshot(paths, files, m) {
      LastSnapshotAfterUpdate(paths, files, i, f, m);
    }
  }

  // ---------- Coherence with the worktree ----------

  predicate AtMostOneSnapshot(paths: Paths, files: seq<ContextFile>, normalized: string) {
    forall i, j :: 0 <= i < j < |files| ==>
      !(Snapshots(paths, files[i], normalized) && Snapshots(paths, files[j], normalized))
  }

  /** If the target exists in the worktree, its content in the context is its content there. */
  predicate Coherent(paths: Paths, files: seq<ContextFile>, tree: Tree, target: string) {
    paths.inside(paths.norm(target)) && paths.norm(target) in tree ==>
      TargetFileContent(paths, files, target) == tree[paths.norm(target)]
  }

  predicate AllCoherent(paths: Paths, files: seq<ContextFile>, tree: Tree, targets: seq<string>) {
    forall k :: 0 <= k < |targets| ==> Coherent(paths, files, tree, targets[k])
  }

  predicate TargetsAreUnique(paths: Paths, files: seq<ContextFile>, targets: seq<string>) {
    forall k :: 0 <= k < |targets| && paths.inside(paths.norm(targets[k])) ==>
      AtMostOneSnapshot(paths, files, paths.norm(targets[k]))
  }

  lemma RefreshOneKeepsUnique(paths: Paths, files: seq<ContextFile>, tree: Tree, target: string, n: string)
    requires ValidPaths(paths) && AtMostOneSnapshot(paths, files, n)
    ensures AtMostOneSnapshot(paths, RefreshOne(paths, files, tree, target), n)
  {
    var r, m := RefreshOne(paths, files, tree, target), paths.norm(target);
    forall i, j | 0 <= i < j < |r| ensures !(Snapshots(paths, r[i], n) && Snapshots(paths, r[j], n)) {
      if j < |files| {
        assert !(Snapshots(paths, files[i], n) && Snapshots(paths, files[j], n));
      } else {
        assert !Snapshots(paths, files[i], m);
      }
    }
  }

  /** The refreshed target is coherent if it had at most one snapshot, and otherwise as before its first one. */
  lemma RefreshOneReads(paths: Paths, files: seq<ContextFile>, tree: Tree, target: string, other: string)
    requires ValidPaths(paths)
    requires paths.norm(other) == paths.norm(target) ==> AtMostOneSnapshot(paths, files, paths.norm(target))
    ensures var n := paths.norm(target);
            TargetFileContent(paths, RefreshOne(paths, files, tree, target), other) ==
              if paths.norm(other) == n && paths.inside(n) && n in tree then tree[n]
              else TargetFileContent(paths, files, other)
  {
    var r, n, m := RefreshOne(paths, files, tree, target), paths.norm(target), paths.norm(other);
    if paths.inside(n) && n in tree {
      var before := FirstSnapshot(paths, files, m);
      if LastSnapshot(paths, files, n) < 0 {
        FirstSnapshotIs(paths, r, m, if before < |files| || m == n then before else |r|);
      } else {
        FirstSnapshotIs(paths, r, m, before);
      }
    }
  }

  lemma FirstSnapshotIs(paths: Paths, files: seq<ContextFile>, n: string, i: nat)
    requires i <= |files| && (i < |files| ==> Snapshots(paths, files[i], n))
    requires forall k :: 0 <= k < i ==> !Snapshots(paths, files[k], n)
    ensures FirstSnapshot(paths, files, n) == i
  {
  }

  /** After a refresh, every target that had at most one snapshot is coherent. */
  lemma {:induction false} RefreshIsCoherent(paths: Paths, files: seq<ContextFile>, tree: Tree, targets: seq<string>)
    requires ValidPaths(paths) && TargetsAreUnique(paths, files, targets)
    ensures AllCoherent(paths, Refresh(paths, files, tree, targets), tree, targets)
    ensures forall n :: AtMostOneSnapshot(paths, files, n) ==>
              AtMostOneSnapshot(paths, Refresh(paths, files, tree, targets), n)
  {
    if targets != [] {
      var earlier, last := targets[..|targets| - 1], targets[|targets| - 1];
      RefreshIsCoherent(paths, files, tree, earlier);
      var before := Refresh(paths, files, tree, earlier);
      forall n | AtMostOneSnapshot(paths, files, n)
        ensures AtMostOneSnapshot(paths, Refresh(paths, files, tree, targets), n)
      {
        RefreshOneKeepsUnique(paths, before, tree, last, n);
      }
      forall k | 0 <= k < |targets| ensures Coherent(paths, Refresh(paths, files, tree, targets), tree, targets[k]) {
        RefreshKeepsCoherent(paths, before, tree, last, targets[k], k == |earlier|);
      }
    }
  }

  lemma RefreshKeepsCoherent(paths: Paths, files: seq<ContextFile>, tree: Tree, target: string, other: string,
                             isTarget: bool)
    requires ValidPaths(paths)
    requires paths.inside(paths.norm(target)) ==> AtMostOneSnapshot(paths, files, paths.norm(target))
    requires if isTarget then other == target else Coherent(paths, files, tree, other)
    ensures Coherent(paths, RefreshOne(paths, files, tree, target), tree, other)
  {
    if paths.inside(paths.norm(target)) {
      RefreshOneReads(paths, files, tree, target, other);
    }
  }

  /** Writing one target and refreshing it keeps every target coherent. */
  lemma WriteKeepsCoherent(paths: Paths, files: seq<ContextFile>, tree: Tree, targets: seq<string>, k: nat,
                           text: string)
    requires ValidPaths(paths) && k < |targets| && paths.inside(paths.norm(targets[k]))
    requires AllCoherent(paths, files, tree, targets) && TargetsAreUnique(paths, files, targets)
    ensures var written := tree[paths.norm(targets[k]) := text];
            var refreshed := RefreshOne(paths, files, written, targets[k]);
            AllCoherent(paths, refreshed, written, targets) && TargetsAreUnique(paths, refreshed, targets)
  {
    var written := tree[paths.norm(targets[k]) := text];
    var refreshed := RefreshOne(paths, files, written, targets[k]);
    forall j | 0 <= j < |targets| ensures Coherent(paths, refreshed, written, targets[j]) {
      assert Coherent(paths, files, tree, targets[j]);
      RefreshOneReads(paths, files, written, targets[k], targets[j]);
    }
    forall j | 0 <= j < |targets| && paths.inside(paths.norm(targets[j]))
      ensures AtMostOneSnapshot(paths, refreshed, paths.norm(targets[j]))
    {
      RefreshOneKeepsUnique(paths, files, written, targets[k], paths.norm(targets[j]));
    }
  }

  /** With two snapshots of the target, the refresh updates the last one and the reader takes the first. */
  lemma DuplicateSnapshotGoesStale(paths: Paths, files: seq<ContextFile>, target: string) returns (tree: Tree)
    requires ValidPaths(paths) && paths.inside(paths.norm(target))
    requires !AtMostOneSnapshot(paths, files, paths.norm(target))
    ensures !Coherent(paths, RefreshOne(paths, files, tree, target), tree, target)
  {
    var n := paths.norm(target);
    var first, last := FirstSnapshot(paths, files, n), LastSnapshot(paths, files, n);
    var i, j :| 0 <= i < j < |files| && Snapshots(paths, files[i], n) && Snapshots(paths, files[j], n);
    assert first <= i && j <= last;
    tree := map[n := files[first].content + "x"];
    var r := RefreshOne(paths, files, tree, target);
    FirstSnapshotIs(paths, r, n, first);
    assert |r[first].content| != |tree[n]|;
  }

  /** Refreshing a target makes it coherent with every possible worktree exactly when the context holds at
      most one snapshot of it. */
  lemma RefreshIsCoherentIff(paths: Paths, files: seq<ContextFile>, target: string)
    requires ValidPaths(paths) && paths.inside(paths.norm(target))
    ensures (forall tree: Tree :: Coherent(paths, RefreshOne(paths, files, tree, target), tree, target))
      <==> AtMostOneSnapshot(paths, files, paths.norm(target))
  {
    if AtMostOneSnapshot(paths, files, paths.norm(target)) {
      forall tree: Tree ensures Coherent(paths, RefreshOne(paths, files, tree, target), tree, target) {
        RefreshOneReads(paths, files, tree, target, target);
      }
    } else {
      var tree := DuplicateSnapshotGoesStale(paths, files, target);
    }
  }

  /** A refresh from a worktree that holds nothing but one file, with two snapshots, leaves the first of them. */
  lemma {:induction false} RefreshLeavesTheFirst(paths: Paths, files: seq<ContextFile>, n: string, text: string,
                                                 targets: seq<string>)
    requires FirstSnapshot(paths, files, n) < LastSnapshot(paths, files, n)
    ensures var r, first := Refresh(paths, files, map[n := text], targets), FirstSnapshot(paths, files, n);
            && LastSnapshot(paths, r, n) == LastSnapshot(paths, files, n)
            && FirstSnapshot(paths, r, n) == first && r[first] == files[first]
  {
    if targets != [] {
      var earlier, last := targets[..|targets| - 1], targets[|targets| - 1];
      RefreshLeavesTheFirst(paths, files, n, text, earlier);
      var before, first := Refresh(paths, files, map[n := text], earlier), FirstSnapshot(paths, files, n);
      var i := LastSnapshot(paths, before, n);
      var f := ContextFile(before[i].path, text, false);
      LastSnapshotAfterUpdate(paths, before, i, f, n);
      FirstSnapshotIs(paths, before[i := f], n, first);
    }
  }

  /** Refreshing all targets leaves the older of two snapshots stale. */
  lemma StaleAfterRefresh(paths: Paths, files: seq<ContextFile>, targets: seq<string>, k: nat) returns (tree: Tree)
    requires k < |targets| && paths.inside(paths.norm(targets[k]))
    requires !AtMostOneSnapshot(paths, files, paths.norm(targets[k]))
    ensures !Coherent(paths, Refresh(paths, files, tree, targets), tree, targets[k])
  {
    var n := paths.norm(targets[k]);
    var first := FirstSnapshot(paths, files, n);
    var i, j :| 0 <= i < j < |files| && Snapshots(paths, files[i], n) && Snapshots(paths, files[j], n);
    assert first <= i && j <= LastSnapshot(paths, files, n);
    var text := files[first].content + "x";
    RefreshLeavesTheFirst(paths, files, n, text, targets);
    tree := map[n := text];
    assert |files[first].content| != |text|;
  }

  /** The context holds an old text of one file under two paths; the worktree holds a new one. */
  lemma SecondSpellingIsRefreshed(paths: Paths, name: string, other: string, before: string, now: string)
    requires paths.inside(name) && paths.norm(name) == name == paths.norm(other)
    ensures var files := [ContextFile(name, before, false), ContextFile(other, before, false)];
            var r := Refresh(paths, files, map[name := now], [name]);
            r == [ContextFile(name, before, false), ContextFile(other, now, false)]
              && TargetFileContent(paths, r, name) == before
  {
    assert [name][..0] == [];
  }

  /** A file name with and without "./" before it are two snapshots of one file: the refresh writes the second
      one, and the loop goes on reading the first one. */
  lemma TwoSpellingsGoStale(inside: string -> bool, name: string, before: string, now: string)
    requires IsPart(name) && inside(name)
    ensures var paths := RepositoryPaths(inside);
            var files := [ContextFile(name, before, false), ContextFile("./" + name, before, false)];
            var r := Refresh(paths, files, map[name := now], [name]);
            r == [ContextFile(name, before, false), ContextFile("./" + name, now, false)]
              && TargetFileContent(paths, r, name) == before
  {
    LeadingDotSlash(name);
    SecondSpellingIsRefreshed(RepositoryPaths(inside), name, "./" + name, before, now);
  }
}
