/** What the writer can do with a target, told from the file it finds and from the snapshot it was shown. */
module WriterAbility {
  import opened Basics
  import opened Tickets
  import opened TargetContext
  import opened ExecutionAttempt
  import opened Patchability
  import PatchApplication

  /** A file of the worktree, if it is there. */
  function Current(tree: Tree, n: string): Option<string> {
    if n in tree then Some(tree[n]) else None
  }

  /** Some answer can be written: a patch needs a file with a text that a block can single out, a whole file
      needs its directory. */
  ghost predicate CanWrite(w: WriterSettings, inside: string -> bool, content: string, n: string,
                           current: Option<string>)
  {
    inside(n) && if PatchMode(w, content) then current.Some? && Patchable(current.value) else w.parentExists(n)
  }

  predicate Letter(p: string) {
    p == "x" || p == "y"
  }

  /** Fence removal leaves these unfenced answers as they are, and every file at HEAD is in a directory. */
  predicate Ordinary(w: WriterSettings, baseline: Tree) {
    && w.stripFence("") == "" && w.stripFence("x") == "x" && w.stripFence("y") == "y"
    && forall n :: n in baseline ==> w.parentExists(n)
  }

  /** When a target can be written and when its directory exists, as values. */
  datatype Ability = Ability(can: (string, string, Option<string>) -> bool, housed: string -> bool)

  ghost function RepositoryAbility(inside: string -> bool, w: WriterSettings): Ability {
    Ability((content, n, current) => CanWrite(w, inside, content, n, current), w.parentExists)
  }

  /** The file can be written again, whatever its snapshot is. */
  ghost predicate Settled(a: Ability, n: string, text: string) {
    a.housed(n) && forall content :: a.can(content, n, Some(text))
  }

  /** The answer writes the file so that it can be written again; a new file becomes p. */
  ghost predicate Writes(c: Config, a: Ability, tree: Tree, target: string, content: string, p: string, output: string)
  {
    var written, n := c.write(tree, target, content, output), c.paths.norm(target);
    written.Wrote? && Settled(a, n, written.text) && (n !in tree ==> written.text == p)
  }

  /** What c's writer writes can be written, and the empty answer is always a write error. */
  ghost predicate Able(c: Config, a: Ability, tree: Tree, target: string, content: string, output: string) {
    var written, n := c.write(tree, target, content, output), c.paths.norm(target);
    && (written.Wrote? ==> a.can(content, n, Current(tree, n)))
    && (output == "" ==> written == WriteError)
  }

  ghost predicate Describes(a: Ability, c: Config) {
    forall tree, target, content, output {:trigger Able(c, a, tree, target, content, output)} ::
      Able(c, a, tree, target, content, output)
  }

  predicate MayWrite(c: Config, a: Ability, tree: Tree, target: string, content: string, p: string) {
    var n := c.paths.norm(target);
    a.can(content, n, Current(tree, n)) && (n in tree ==> a.housed(n)) && Letter(p)
  }

  /** What can be written, some answer writes. */
  ghost predicate Answerable(c: Config, a: Ability) {
    forall tree, target, content, p {:trigger MayWrite(c, a, tree, target, content, p)} ::
      MayWrite(c, a, tree, target, content, p) ==> exists output :: Writes(c, a, tree, target, content, p, output)
  }

  lemma WriterIsAble(w: WriterSettings, inside: string -> bool, tree: Tree, target: string, content: string,
                     output: string)
    requires w.stripFence("") == ""
    ensures var paths := RepositoryPaths(inside);
            var written, n := WriteTarget(w, paths, tree, target, content, output), paths.norm(target);
            && (written.Wrote? ==> CanWrite(w, inside, content, n, Current(tree, n)))
            && (output == "" ==> written == WriteError)
  {
    var paths := RepositoryPaths(inside);
    var n := paths.norm(target);
    EmptyHasNoBlocks();
    if PatchMode(w, content) && n in tree && PatchApplication.PatchText(tree[n], output).Applied? {
      AppliedMeansPatchable(tree[n], output);
    }
  }

  lemma EmptyHasNoBlocks()
    ensures !HasBlocks("")
  {
  }

  /** Some answer writes the target exactly when it lies inside the worktree and its directory exists, if its
      snapshot is small, or else the file exists and holds a searchable text exactly once. */
  lemma CanWriteIff(w: WriterSettings, inside: string -> bool, tree: Tree, target: string, content: string)
    requires Ordinary(w, map[])
    ensures var paths := RepositoryPaths(inside);
            (exists output :: WriteTarget(w, paths, tree, target, content, output).Wrote?)
            <==> CanWrite(w, inside, content, paths.norm(target), Current(tree, paths.norm(target)))
  {
    var paths := RepositoryPaths(inside);
    var n := paths.norm(target);
    if CanWrite(w, inside, content, n, Current(tree, n)) {
      var output := "x";
      if PatchMode(w, content) {
        var s :| Searchable(s) && OccursOnce(tree[n], s);
        var filled;
        output, filled := FillingApplies(tree[n], s);
      }
      assert WriteTarget(w, paths, tree, target, content, output).Wrote?;
    }
    forall output | WriteTarget(w, paths, tree, target, content, output).Wrote?
      ensures CanWrite(w, inside, content, n, Current(tree, n))
    {
      WriterIsAble(w, inside, tree, target, content, output);
    }
  }

  lemma RepositoryAbilityDescribes(inside: string -> bool, w: WriterSettings, c: Config)
    requires c == RepositoryConfig(inside, w, c.policy, c.baseline) && w.stripFence("") == ""
    ensures Describes(RepositoryAbility(inside, w), c)
  {
    var a := RepositoryAbility(inside, w);
    forall tree, target, content, output ensures Able(c, a, tree, target, content, output) {
      WriterIsAble(w, inside, tree, target, content, output);
    }
  }

  lemma LettersSettle(inside: string -> bool, w: WriterSettings, n: string, text: string)
    requires inside(n) && w.parentExists(n) && Patchable(text)
    ensures Settled(RepositoryAbility(inside, w), n, text)
  {
  }

  lemma SomeAnswerWrites(inside: string -> bool, w: WriterSettings, c: Config, tree: Tree, target: string,
                         content: string, p: string)
    returns (output: string)
    requires c == RepositoryConfig(inside, w, c.policy, c.baseline) && Ordinary(w, c.baseline) && Letter(p)
    requires CanWrite(w, inside, content, c.paths.norm(target), Current(tree, c.paths.norm(target)))
    requires c.paths.norm(target) in tree ==> w.parentExists(c.paths.norm(target))
    ensures Writes(c, RepositoryAbility(inside, w), tree, target, content, p, output)
  {
    var n := c.paths.norm(target);
    var filled;
    if PatchMode(w, content) {
      var s :| Searchable(s) && OccursOnce(tree[n], s);
      output, filled := FillingApplies(tree[n], s);
    } else {
      LetterIsPatchable(p);
      output, filled := p, p;
    }
    LettersSettle(inside, w, n, filled);
    assert c.write(tree, target, content, output) == WriteTarget(w, c.paths, tree, target, content, output);
    assert c.write(tree, target, content, output) == Wrote(filled);
  }

  lemma RepositoryAnswers(inside: string -> bool, w: WriterSettings, c: Config)
    requires c == RepositoryConfig(inside, w, c.policy, c.baseline) && Ordinary(w, c.baseline)
    ensures Answerable(c, RepositoryAbility(inside, w))
  {
    var a := RepositoryAbility(inside, w);
    forall tree, target, content, p | MayWrite(c, a, tree, target, content, p)
      ensures exists output :: Writes(c, a, tree, target, content, p, output)
    {
      var output := SomeAnswerWrites(inside, w, c, tree, target, content, p);
    }
  }
}
