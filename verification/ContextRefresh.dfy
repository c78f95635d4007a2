/** What a refresh of a ticket's context rewrites, and what it leaves. */
module ContextRefresh {
  import opened Basics
  import opened Tickets
  import opened TargetContext

  /** A refresh finds this target in the worktree. */
  predicate Refreshed(paths: Paths, tree: Tree, target: string) {
    paths.inside(paths.norm(target)) && paths.norm(target) in tree
  }

  /** Every target that a refresh finds already has a snapshot. */
  predicate HasSnapshots(paths: Paths, files: seq<ContextFile>, tree: Tree, targets: seq<string>) {
    forall k :: 0 <= k < |targets| && Refreshed(paths, tree, targets[k]) ==>
      LastSnapshot(paths, files, paths.norm(targets[k])) >= 0
  }

  predicate SamePaths(files: seq<ContextFile>, others: seq<ContextFile>) {
    |files| == |others| && forall i :: 0 <= i < |files| ==> files[i].path == others[i].path
  }

  lemma SamePathsSameRow(paths: Paths, files: seq<ContextFile>, others: seq<ContextFile>, n: string)
    requires SamePaths(files, others)
    ensures LastSnapshot(paths, files, n) == LastSnapshot(paths, others, n)
  {
    var i, j := LastSnapshot(paths, files, n), LastSnapshot(paths, others, n);
    if i >= 0 {
      assert Snapshots(paths, others[i], n);
    }
    if j >= 0 {
      assert Snapshots(paths, files[j], n);
    }
  }

  /** Row i is where a refresh writes some target. */
  predicate TargetRow(paths: Paths, files: seq<ContextFile>, tree: Tree, targets: seq<string>, i: int) {
    exists k :: 0 <= k < |targets| && Refreshed(paths, tree, targets[k])
                && LastSnapshot(paths, files, paths.norm(targets[k])) == i
  }

  function Rewritten(paths: Paths, f: ContextFile, tree: Tree): ContextFile
    requires paths.norm(f.path) in tree
  {
    ContextFile(f.path, tree[paths.norm(f.path)], false)
  }

  /** A refresh whose targets already have snapshots rewrites exactly their rows. */
  lemma {:induction false} RefreshRewritesRows(paths: Paths, files: seq<ContextFile>, tree: Tree, targets: seq<string>)
    requires HasSnapshots(paths, files, tree, targets)
    ensures var r := Refresh(paths, files, tree, targets);
            && SamePaths(r, files)
            && forall i :: 0 <= i < |files| ==>
                 if TargetRow(paths, files, tree, targets, i)
                 then paths.norm(files[i].path) in tree && r[i] == Rewritten(paths, files[i], tree)
                 else r[i] == files[i]
  {
    if targets != [] {
      var earlier, last := targets[..|targets| - 1], targets[|targets| - 1];
      RefreshRewritesRows(paths, files, tree, earlier);
      var before := Refresh(paths, files, tree, earlier);
      SamePathsSameRow(paths, before, files, paths.norm(last));
      var r := Refresh(paths, files, tree, targets);
      var row := LastSnapshot(paths, files, paths.norm(last));
      forall i | 0 <= i < |files|
        ensures if TargetRow(paths, files, tree, targets, i)
                then paths.norm(files[i].path) in tree && r[i] == Rewritten(paths, files[i], tree)
                else r[i] == files[i]
      {
        TargetRowOfLast(paths, files, tree, earlier, last, i);
        assert targets == earlier + [last];
      }
    }
  }

  lemma TargetRowOfLast(paths: Paths, files: seq<ContextFile>, tree: Tree, earlier: seq<string>, last: string, i: int)
    ensures TargetRow(paths, files, tree, earlier + [last], i)
      <==> TargetRow(paths, files, tree, earlier, i)
           || (Refreshed(paths, tree, last) && LastSnapshot(paths, files, paths.norm(last)) == i)
  {
    var all := earlier + [last];
    assert all[|earlier|] == last;
    if TargetRow(paths, files, tree, earlier, i) {
      var k :| 0 <= k < |earlier| && Refreshed(paths, tree, earlier[k])
               && LastSnapshot(paths, files, paths.norm(earlier[k])) == i;
      assert all[k] == earlier[k];
    }
  }

  /** Rewriting the row of a target that the later refresh finds makes no difference to that refresh. */
  lemma RefreshForgets(paths: Paths, files: seq<ContextFile>, tree: Tree, targets: seq<string>, k: nat, other: Tree)
    requires HasSnapshots(paths, files, tree, targets) && k < |targets| && Refreshed(paths, tree, targets[k])
    ensures var changed := RefreshOne(paths, files, other, targets[k]);
            && HasSnapshots(paths, changed, tree, targets)
            && Refresh(paths, changed, tree, targets) == Refresh(paths, files, tree, targets)
  {
    var changed := RefreshOne(paths, files, other, targets[k]);
    assert SamePaths(changed, files);
    forall n ensures LastSnapshot(paths, changed, n) == LastSnapshot(paths, files, n) {
      SamePathsSameRow(paths, changed, files, n);
    }
    RefreshRewritesRows(paths, files, tree, targets);
    RefreshRewritesRows(paths, changed, tree, targets);
    var r, s := Refresh(paths, files, tree, targets), Refresh(paths, changed, tree, targets);
    forall i | 0 <= i < |r| ensures s[i] == r[i] {
      assert TargetRow(paths, changed, tree, targets, i) <==> TargetRow(paths, files, tree, targets, i);
      assert changed[i] != files[i] ==> TargetRow(paths, files, tree, targets, i);
    }
  }

  /** After a refresh every target found in the worktree has a snapshot, and it is the worktree's content. */
  lemma {:induction false} RefreshWrites(paths: Paths, files: seq<ContextFile>, tree: Tree, targets: seq<string>,
                                         k: nat)
    requires ValidPaths(paths) && k < |targets|
    requires Refreshed(paths, tree, targets[k])
    ensures var r, n := Refresh(paths, files, tree, targets), paths.norm(targets[k]);
            var i := LastSnapshot(paths, r, n);
            i >= 0 && r[i] == Rewritten(paths, r[i], tree)
  {
    var earlier, last := targets[..|targets| - 1], targets[|targets| - 1];
    var before, n := Refresh(paths, files, tree, earlier), paths.norm(targets[k]);
    if k < |earlier| {
      RefreshWrites(paths, files, tree, earlier, k);
    }
    RefreshOneRow(paths, before, tree, last, n);
  }

  lemma RefreshOneRow(paths: Paths, files: seq<ContextFile>, tree: Tree, target: string, n: string)
    requires ValidPaths(paths)
    ensures var r, m := RefreshOne(paths, files, tree, target), paths.norm(target);
            if n == m && Refreshed(paths, tree, target) then
              var i := LastSnapshot(paths, r, n);
              i >= 0 && r[i] == Rewritten(paths, r[i], tree)
            else
              var i := LastSnapshot(paths, files, n);
              LastSnapshot(paths, r, n) == i && (i >= 0 ==> r[i] == files[i])
  {
    var m := paths.norm(target);
    if paths.inside(m) && m in tree {
      var i := LastSnapshot(paths, files, m);
      if i < 0 {
        LastSnapshotAfterAppend(paths, files, ContextFile(m, tree[m], false), n);
      } else {
        LastSnapshotAfterUpdate(paths, files, i, ContextFile(files[i].path, tree[m], false), n);
      }
    }
  }

  /** A path that the refresh does not find keeps its last snapshot, or its lack of one. */
  lemma {:induction false} RefreshLeavesMissing(paths: Paths, files: seq<ContextFile>, tree: Tree,
                                                targets: seq<string>, n: string)
    requires ValidPaths(paths) && n !in tree
    ensures var r, i := Refresh(paths, files, tree, targets), LastSnapshot(paths, files, n);
            LastSnapshot(paths, r, n) == i && (i >= 0 ==> r[i] == files[i])
  {
    if targets != [] {
      var earlier, last := targets[..|targets| - 1], targets[|targets| - 1];
      RefreshLeavesMissing(paths, files, tree, earlier, n);
      RefreshOneRow(paths, Refresh(paths, files, tree, earlier), tree, last, n);
    }
  }

  /** Refreshing twice from the same worktree is refreshing once. */
  lemma RefreshTwice(paths: Paths, files: seq<ContextFile>, tree: Tree, targets: seq<string>)
    requires ValidPaths(paths)
    ensures var r := Refresh(paths, files, tree, targets);
            HasSnapshots(paths, r, tree, targets) && Refresh(paths, r, tree, targets) == r
  {
    var r := Refresh(paths, files, tree, targets);
    forall k | 0 <= k < |targets| && Refreshed(paths, tree, targets[k])
      ensures LastSnapshot(paths, r, paths.norm(targets[k])) >= 0
              && r[LastSnapshot(paths, r, paths.norm(targets[k]))]
                 == Rewritten(paths, r[LastSnapshot(paths, r, paths.norm(targets[k]))], tree)
    {
      RefreshWrites(paths, files, tree, targets, k);
    }
    RefreshRewritesRows(paths, r, tree, targets);
    var s := Refresh(paths, r, tree, targets);
    forall i | 0 <= i < |r| ensures s[i] == r[i] {
      if TargetRow(paths, r, tree, targets, i) {
        var k :| 0 <= k < |targets| && Refreshed(paths, tree, targets[k])
                 && LastSnapshot(paths, r, paths.norm(targets[k])) == i;
      }
    }
  }
}
