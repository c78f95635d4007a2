/** One attempt at a ticket, as a function of everything it cannot decide itself: what the models answer,
    whether tests pass, when the user cancels. */
module ExecutionAttempt {
  import opened Basics
  import opened Tickets
  import opened ModelPolicy
  import opened TargetContext
  import ContextBudget
  import PatchApplication
  import PatchLanguage

  // ---------- Writing one file ----------

  const OUTPUT_TOKEN_OVERHEAD := 512

  /** Half as much again as the file, rounded up, and a constant on top. */
  function RequiredRewriteOutputTokens(content: string): nat {
    (3 * ContextBudget.EstimateTokens(content) + 1) / 2 + OUTPUT_TOKEN_OVERHEAD
  }

  datatype WriteResult = Wrote(text: string) | WriteError | Crash

  /** The parts of the write that belong to the repository: code-fence removal, existing directories, limits. */
  datatype WriterSettings = WriterSettings(
    stripFence: string -> string, parentExists: string -> bool, patchThreshold: nat, maxOutputTokens: nat)

  predicate PatchMode(w: WriterSettings, content: string) {
    RequiredRewriteOutputTokens(content) > Min(w.patchThreshold, w.maxOutputTokens)
  }

  /** The answer holds SEARCH/REPLACE blocks. */
  predicate HasBlocks(output: string) {
    PatchLanguage.ParseLines(SplitLines(output)).Parsed?
  }

  /** content is the target's snapshot; its size alone decides between a patch and a whole-file rewrite. The
      answer is parsed before the file is read: blocks for a file that is missing from the worktree are no
      write error but end the run. */
  function WriteTarget(w: WriterSettings, paths: Paths, tree: Tree, target: string, content: string, output: string)
    : WriteResult
  {
    var path := paths.norm(target);
    if PatchMode(w, content) then
      if !paths.inside(path) || !HasBlocks(output) then WriteError
      else if path !in tree then Crash
      else
        match PatchApplication.PatchText(tree[path], output)
        case Applied(text) => Wrote(text)
        case Rejected(_) => WriteError
    else
      var text := w.stripFence(output);
      if text == "" || !paths.inside(path) || !w.parentExists(path) then WriteError else Wrote(text)
  }

  /** With the default limits, a target is patched exactly when its snapshot has 4100 characters or more. */
  lemma PatchModeIff(w: WriterSettings, content: string)
    requires w.patchThreshold == 2048 && w.maxOutputTokens == 4096
    ensures PatchMode(w, content) <==> |content| >= 4100
  {
    var tokens := ContextBudget.EstimateTokens(content);
    assert tokens >= 1025 <==> |content| >= 4100;
  }

  /** The run crashes on a file exactly when it has a large snapshot, is missing from the worktree, and the
      answer parses; and a patch never takes more than 40% of a file of 400 characters or more. */
  lemma WriteTargetIsGuarded(w: WriterSettings, paths: Paths, tree: Tree, target: string, content: string,
                             output: string)
    ensures var r, path := WriteTarget(w, paths, tree, target, content, output), paths.norm(target);
            && (r.Crash? <==> PatchMode(w, content) && paths.inside(path) && path !in tree && HasBlocks(output))
            && (r.Wrote? && PatchMode(w, content) ==>
                  path in tree && (|tree[path]| >= 400 ==> 10 * |r.text| >= 6 * |tree[path]|))
            && (r.Wrote? ==> paths.inside(path))
  {
    var path := paths.norm(target);
    if PatchMode(w, content) && paths.inside(path) && path in tree
      && PatchApplication.PatchText(tree[path], output).Applied? {
      PatchApplication.PatchedLength(tree[path], output);
    }
  }

  /** What is written: the answer's patch of the file that is there, or the answer without its fence, unless it is
      empty; and only inside the worktree. */
  lemma WrittenIff(w: WriterSettings, paths: Paths, tree: Tree, target: string, content: string, output: string,
                   text: string)
    ensures var path := paths.norm(target);
            var written := WriteTarget(w, paths, tree, target, content, output) == Wrote(text);
            if PatchMode(w, content)
            then written <==> paths.inside(path) && path in tree
                              && PatchApplication.PatchText(tree[path], output) == PatchApplication.Applied(text)
            else written <==> paths.inside(path) && w.parentExists(path) && text == w.stripFence(output) && text != ""
  {
  }

  // ---------- One attempt ----------

  datatype Config = Config(
    paths: Paths,
    write: (Tree, string, string, string) -> WriteResult,
    policy: Option<Policy>,   // present when the loop has a settings repository
    baseline: Tree)           // the files at HEAD

  function RepositoryConfig(inside: string -> bool, w: WriterSettings, policy: Option<Policy>, baseline: Tree): Config {
    var paths := RepositoryPaths(inside);
    Config(paths,
           (tree, target, content, output) => WriteTarget(w, paths, tree, target, content, output),
           policy,
           baseline)
  }

  ghost predicate ValidConfig(c: Config) {
    && ValidPaths(c.paths)
    && (forall tree, target, content, output ::
          c.write(tree, target, content, output).Wrote? ==> c.paths.inside(c.paths.norm(target)))
  }

  /** The repository's own settings are of this kind. */
  lemma RepositoryConfigIsValid(inside: string -> bool, w: WriterSettings, policy: Option<Policy>, baseline: Tree)
    ensures ValidConfig(RepositoryConfig(inside, w, policy, baseline))
  {
    RepositoryPathsAreValid(inside);
    var c := RepositoryConfig(inside, w, policy, baseline);
    forall tree, target, content, output | c.write(tree, target, content, output).Wrote?
      ensures inside(c.paths.norm(target))
    {
      WriteTargetIsGuarded(w, c.paths, tree, target, content, output);
    }
  }

  /** The environment of a run. The first argument is the number of the attempt, the second that of the
      target file within it. */
  datatype Environment = Environment(
    cancelledAtStart: nat -> bool,
    cancelledBefore: (nat, nat) -> bool,
    cancelledAfter: nat -> bool,
    output: (nat, nat) -> Option<string>,   // None when the model call fails
    usage: (nat, nat) -> bool,        // the model reported cloud usage, which saves the ticket
    testsPass: nat -> bool,
    afterTests: nat -> Tree)

  /** The context in memory, the worktree, and the context last saved. */
  datatype Desk = Desk(files: seq<ContextFile>, tree: Tree, saved: seq<ContextFile>)

  datatype GenerationEnd = AllWritten | WriteFailed | Stopped | Broken

  datatype Generation = Generation(end: GenerationEnd, desk: Desk, dispatches: seq<Desk>)

  /** What one dispatch leaves behind: the written file is fed back into the context in memory. */
  function Dispatch(c: Config, env: Environment, target: string, n: nat, k: nat, d: Desk): Generation {
    var content := TargetFileContent(c.paths, d.files, target);
    match env.output(n, k)
    case None => Generation(Broken, d, [d])
    case Some(output) =>
      var saved := if env.usage(n, k) then d.files else d.saved;
      match c.write(d.tree, target, content, output)
      case Wrote(text) =>
        var tree := d.tree[c.paths.norm(target) := text];
        Generation(AllWritten, Desk(RefreshOne(c.paths, d.files, tree, target), tree, saved), [d])
      case WriteError => Generation(WriteFailed, d.(saved := saved), [d])
      case Crash => Generation(Broken, d.(saved := saved), [d])
  }

  /** The targets from k on, one after the other, until one of them fails. */
  function Generate(c: Config, env: Environment, targets: seq<string>, n: nat, k: nat, d: Desk): Generation
    requires k <= |targets|
    decreases |targets| - k
  {
    if k == |targets| then Generation(AllWritten, d, [])
    else if env.cancelledBefore(n, k) then Generation(Stopped, d, [])
    else
      var first := Dispatch(c, env, targets[k], n, k, d);
      if first.end != AllWritten then first
      else
        var later := Generate(c, env, targets, n, k + 1, first.desk);
        later.(dispatches := [d] + later.dispatches)
  }

  // ---------- The attempt with its tests ----------

  /** What an attempt used: its model and retry count, the tree it started from, what the model was shown. */
  datatype Attempt = Attempt(model: string, attempts: nat, start: Tree, dispatches: seq<Desk>)

  datatype Ending = DiffReady | Failed | Cancelled | Crashed

  /** An attempt made, with the ticket as saved and the worktree after it. */
  datatype Trial = Trial(ending: Ending, ticket: Ticket, tree: Tree, attempt: Attempt)

  /** The tree an attempt starts from: reset before a retry. */
  function StartTree(c: Config, t: Ticket, tree: Tree): Tree {
    if t.execution.attempts > 0 then c.baseline else tree
  }

  function Generating(c: Config, env: Environment, t: Ticket, tree: Tree, n: nat): Generation {
    var files := Refresh(c.paths, t.contextFiles, tree, t.targetFiles);
    Generate(c, env, t.targetFiles, n, 0, Desk(files, tree, t.contextFiles))
  }

  /** The attempt number n, up to its tests. */
  function TryOnce(c: Config, env: Environment, t: Ticket, tree: Tree, n: nat): Trial {
    var start := StartTree(c, t, tree);
    var g := Generating(c, env, t, start, n);
    var attempt := Attempt(t.execution.assignedModel, t.execution.attempts, start, g.dispatches);
    var saved := t.(contextFiles := g.desk.saved);
    if g.end == Stopped then Trial(Cancelled, saved, g.desk.tree, attempt)
    else if g.end == Broken then Trial(Crashed, saved, g.desk.tree, attempt)
    else
      var testing := saved.(status := Testing);
      if env.cancelledAfter(n) then Trial(Cancelled, testing, g.desk.tree, attempt)
      else if g.end == WriteFailed then Trial(Failed, testing, g.desk.tree, attempt)
      else Trial(if env.testsPass(n) then DiffReady else Failed, testing, env.afterTests(n), attempt)
  }

  /** What an attempt leaves of the ticket it was made for. */
  predicate TrialOf(t: Ticket, trial: Trial) {
    && trial.attempt.model == t.execution.assignedModel && trial.attempt.attempts == t.execution.attempts
    && trial.ticket.execution == t.execution && trial.ticket.metadata == t.metadata
    && trial.ticket.targetFiles == t.targetFiles && trial.ticket.id == t.id
    && trial.ticket.status in {InProgress, Testing}
    && (trial.ending in {DiffReady, Failed} ==> trial.ticket.status == Testing)
  }

  lemma TryOnceIsOf(c: Config, env: Environment, t: Ticket, tree: Tree, n: nat)
    requires t.status == InProgress
    ensures TrialOf(t, TryOnce(c, env, t, tree, n))
  {
  }
}
