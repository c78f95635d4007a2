/** What one attempt can carry over to the next one through the saved context. */
module ContextCarryOver {
  import opened Basics
  import opened Tickets
  import opened RepoPaths
  import opened TargetContext
  import opened ContextRefresh
  import opened WriterAbility
  import opened ModelPolicy
  import opened StateMachine
  import opened ExecutionAttempt
  import opened ExecutionRun
  import opened ExecutionProperties

  // ---------- What can be told before the run ----------

  /** At its turn, from the files at HEAD and the context shown first, this target can be written. */
  predicate Passable(c: Config, a: Ability, targets: seq<string>, shown: seq<ContextFile>, i: nat)
    requires i < |targets|
  {
    var n := c.paths.norm(targets[i]);
    a.can(TargetFileContent(c.paths, shown, targets[i]), n, Current(c.baseline, n))
  }

  /** This target is not the last one and is missing at HEAD, and it and all before it can be written. */
  predicate CarriesAt(c: Config, a: Ability, targets: seq<string>, shown: seq<ContextFile>, j: nat) {
    && j + 1 < |targets|
    && c.paths.norm(targets[j]) !in c.baseline
    && (forall i :: 0 <= i <= j ==> Passable(c, a, targets, shown, i))
  }

  predicate CanCarry(c: Config, a: Ability, targets: seq<string>, shown: seq<ContextFile>) {
    exists j :: 0 <= j < |targets| && CarriesAt(c, a, targets, shown, j)
  }

  /** A first attempt that fails is not the last one. */
  predicate CanRetry(c: Config, t: Ticket) {
    t.execution.attempts < t.execution.retryBudget || FallbackModels(c.policy, t.execution.assignedModel) != []
  }

  // ---------- Following the worktree and the context through an attempt ----------

  predicate Untouched(paths: Paths, targets: seq<string>, k: nat, n: string)
    requires k <= |targets|
  {
    forall i :: 0 <= i < k ==> paths.norm(targets[i]) != n
  }

  /** Before target k: a target whose file was not written yet is as at the start; a written one is there. */
  predicate AsExpected(c: Config, targets: seq<string>, shown: seq<ContextFile>, k: nat, d: Desk, m: nat)
    requires k <= |targets| && m < |targets|
  {
    var n := c.paths.norm(targets[m]);
    if Untouched(c.paths, targets, k, n) then
      && TargetFileContent(c.paths, d.files, targets[m]) == TargetFileContent(c.paths, shown, targets[m])
      && Current(d.tree, n) == Current(c.baseline, n)
    else n in d.tree
  }

  predicate Follows(c: Config, targets: seq<string>, shown: seq<ContextFile>, k: nat, d: Desk)
    requires k <= |targets|
  {
    forall m :: 0 <= m < |targets| ==> AsExpected(c, targets, shown, k, d, m)
  }

  /** The desk after text was written to this target. */
  function AfterWrite(c: Config, d: Desk, target: string, text: string, saved: seq<ContextFile>): Desk {
    var tree := d.tree[c.paths.norm(target) := text];
    Desk(RefreshOne(c.paths, d.files, tree, target), tree, saved)
  }

  lemma WritingFollows(c: Config, targets: seq<string>, shown: seq<ContextFile>, k: nat, d: Desk, text: string,
                       saved: seq<ContextFile>)
    requires ValidPaths(c.paths) && k < |targets| && Follows(c, targets, shown, k, d)
    ensures Follows(c, targets, shown, k + 1, AfterWrite(c, d, targets[k], text, saved))
  {
    var after, next := AfterWrite(c, d, targets[k], text, saved), k + 1;
    forall m | 0 <= m < |targets| ensures AsExpected(c, targets, shown, next, after, m) {
      assert AsExpected(c, targets, shown, k, d, m);
      if c.paths.norm(targets[m]) != c.paths.norm(targets[k]) {
        RefreshOneReads(c.paths, d.files, after.tree, targets[k], targets[m]);
        assert Untouched(c.paths, targets, next, c.paths.norm(targets[m]))
          <==> Untouched(c.paths, targets, k, c.paths.norm(targets[m]));
      }
    }
  }

  /** All targets before k could be written when their turn came. */
  predicate AllPassable(c: Config, a: Ability, targets: seq<string>, shown: seq<ContextFile>, k: nat)
    requires k <= |targets|
  {
    forall i :: 0 <= i < k ==> Passable(c, a, targets, shown, i)
  }

  /** If target k is written at its turn, that could be told before. */
  lemma TurnIsForeseen(c: Config, a: Ability, targets: seq<string>, shown: seq<ContextFile>, k: nat, d: Desk,
                       output: string)
    requires Describes(a, c) && k < |targets|
    requires Follows(c, targets, shown, k, d) && AllPassable(c, a, targets, shown, k)
    requires c.write(d.tree, targets[k], TargetFileContent(c.paths, d.files, targets[k]), output).Wrote?
    ensures Passable(c, a, targets, shown, k)
  {
    var n, content := c.paths.norm(targets[k]), TargetFileContent(c.paths, d.files, targets[k]);
    assert AsExpected(c, targets, shown, k, d, k);
    assert Able(c, a, d.tree, targets[k], content, output);
    if !Untouched(c.paths, targets, k, n) {
      var i :| 0 <= i < k && c.paths.norm(targets[i]) == n;
      assert Passable(c, a, targets, shown, i);
    }
  }

  // ---------- Nothing is carried over ----------

  /** Refreshed from HEAD, the context is shown. */
  predicate Shows(c: Config, files: seq<ContextFile>, targets: seq<string>, shown: seq<ContextFile>) {
    Refresh(c.paths, files, c.baseline, targets) == shown
  }

  /** As long as only files that exist at HEAD were written, a refresh from HEAD undoes it. */
  predicate Undone(c: Config, targets: seq<string>, shown: seq<ContextFile>, k: nat, files: seq<ContextFile>)
    requires k <= |targets|
  {
    (forall i :: 0 <= i < k ==> c.paths.norm(targets[i]) in c.baseline) ==>
      Shows(c, files, targets, shown) && HasSnapshots(c.paths, files, c.baseline, targets)
  }

  predicate Foreseen(c: Config, a: Ability, targets: seq<string>, shown: seq<ContextFile>, k: nat, d: Desk)
    requires k <= |targets|
  {
    Follows(c, targets, shown, k, d) && AllPassable(c, a, targets, shown, k) && Undone(c, targets, shown, k, d.files)
  }

  lemma WritingIsForeseen(c: Config, a: Ability, targets: seq<string>, shown: seq<ContextFile>, k: nat, d: Desk,
                          text: string, saved: seq<ContextFile>)
    requires ValidPaths(c.paths) && k < |targets| && Foreseen(c, a, targets, shown, k, d)
    requires c.paths.inside(c.paths.norm(targets[k])) && Passable(c, a, targets, shown, k)
    ensures Foreseen(c, a, targets, shown, k + 1, AfterWrite(c, d, targets[k], text, saved))
  {
    WritingFollows(c, targets, shown, k, d, text, saved);
    if forall i :: 0 <= i < k + 1 ==> c.paths.norm(targets[i]) in c.baseline {
      assert c.paths.norm(targets[k]) in c.baseline;
      RefreshForgets(c.paths, d.files, c.baseline, targets, k, d.tree[c.paths.norm(targets[k]) := text]);
    }
  }

  /** If nothing can be carried over, every turn finds only files of HEAD written. */
  lemma OnlyFilesOfHead(c: Config, a: Ability, targets: seq<string>, shown: seq<ContextFile>, k: nat, i: nat)
    requires k < |targets| && AllPassable(c, a, targets, shown, k) && !CanCarry(c, a, targets, shown) && i < k
    ensures c.paths.norm(targets[i]) in c.baseline
  {
    assert !CarriesAt(c, a, targets, shown, i);
  }

  lemma DispatchSavesWhatIsShown(c: Config, a: Ability, env: Environment, targets: seq<string>, shown: seq<ContextFile>,
                                 n: nat, k: nat, d: Desk)
    requires ValidConfig(c) && Describes(a, c) && !CanCarry(c, a, targets, shown) && k < |targets|
    requires Foreseen(c, a, targets, shown, k, d) && Shows(c, d.saved, targets, shown)
    ensures var g := Dispatch(c, env, targets[k], n, k, d);
            && (g.end == AllWritten ==> Foreseen(c, a, targets, shown, k + 1, g.desk))
            && Shows(c, g.desk.saved, targets, shown)
  {
    forall i | 0 <= i < k ensures c.paths.norm(targets[i]) in c.baseline {
      OnlyFilesOfHead(c, a, targets, shown, k, i);
    }
    if env.output(n, k).Some? {
      var output, content := env.output(n, k).value, TargetFileContent(c.paths, d.files, targets[k]);
      var written := c.write(d.tree, targets[k], content, output);
      if written.Wrote? {
        TurnIsForeseen(c, a, targets, shown, k, d, output);
        WritingIsForeseen(c, a, targets, shown, k, d, written.text, if env.usage(n, k) then d.files else d.saved);
      }
    }
  }

  lemma {:induction false} GenerationSavesWhatIsShown(c: Config, a: Ability, env: Environment, targets: seq<string>,
                                                      shown: seq<ContextFile>, n: nat, k: nat, d: Desk)
    requires ValidConfig(c) && Describes(a, c) && !CanCarry(c, a, targets, shown) && k <= |targets|
    requires Foreseen(c, a, targets, shown, k, d) && Shows(c, d.saved, targets, shown)
    ensures Shows(c, Generate(c, env, targets, n, k, d).desk.saved, targets, shown)
    decreases |targets| - k
  {
    if k < |targets| && !env.cancelledBefore(n, k) {
      DispatchSavesWhatIsShown(c, a, env, targets, shown, n, k, d);
      var first := Dispatch(c, env, targets[k], n, k, d);
      if first.end == AllWritten {
        GenerationSavesWhatIsShown(c, a, env, targets, shown, n, k + 1, first.desk);
      }
    }
  }

  ghost predicate NoUsage(env: Environment) {
    forall n, k :: !env.usage(n, k)
  }

  lemma {:induction false} WithoutUsageNothingIsSaved(c: Config, env: Environment, targets: seq<string>, n: nat,
                                                      k: nat, d: Desk)
    requires NoUsage(env) && k <= |targets|
    ensures Generate(c, env, targets, n, k, d).desk.saved == d.saved
    decreases |targets| - k
  {
    if k < |targets| && !env.cancelledBefore(n, k) {
      var first := Dispatch(c, env, targets[k], n, k, d);
      if first.end == AllWritten {
        WithoutUsageNothingIsSaved(c, env, targets, n, k + 1, first.desk);
      }
    }
  }

  lemma StartIsForeseen(c: Config, a: Ability, files: seq<ContextFile>, targets: seq<string>, shown: seq<ContextFile>,
                        saved: seq<ContextFile>)
    requires ValidPaths(c.paths) && Shows(c, files, targets, shown)
    ensures Foreseen(c, a, targets, shown, 0, Desk(shown, c.baseline, saved))
  {
    RefreshTwice(c.paths, files, c.baseline, targets);
    forall m | 0 <= m < |targets|
      ensures AsExpected(c, targets, shown, 0, Desk(shown, c.baseline, saved), m)
    {
    }
  }

  /** Nothing is carried over in this run: it cannot be, or no usage is recorded. */
  ghost predicate NothingCarried(c: Config, a: Ability, env: Environment, targets: seq<string>, shown: seq<ContextFile>)
  {
    NoUsage(env) || !CanCarry(c, a, targets, shown)
  }

  lemma GeneratingSavesWhatIsShown(c: Config, a: Ability, env: Environment, t: Ticket, n: nat, shown: seq<ContextFile>)
    requires ValidConfig(c) && Describes(a, c) && NothingCarried(c, a, env, t.targetFiles, shown)
    requires Shows(c, t.contextFiles, t.targetFiles, shown)
    ensures Shows(c, Generating(c, env, t, c.baseline, n).desk.saved, t.targetFiles, shown)
  {
    var d := Desk(shown, c.baseline, t.contextFiles);
    if NoUsage(env) {
      WithoutUsageNothingIsSaved(c, env, t.targetFiles, n, 0, d);
    } else {
      StartIsForeseen(c, a, t.contextFiles, t.targetFiles, shown, t.contextFiles);
      GenerationSavesWhatIsShown(c, a, env, t.targetFiles, shown, n, 0, d);
    }
  }

  lemma {:induction false} FirstDispatchIsTheStart(c: Config, env: Environment, targets: seq<string>, n: nat, k: nat,
                                                   d: Desk)
    requires k <= |targets|
    ensures var g := Generate(c, env, targets, n, k, d);
            g.dispatches != [] ==> g.dispatches[0] == d
  {
  }

  predicate AttemptShows(a: Attempt, shown: seq<ContextFile>) {
    a.dispatches != [] ==> a.dispatches[0].files == shown
  }

  predicate ShowingStart(c: Config, targets: seq<string>, shown: seq<ContextFile>, t: Ticket, tree: Tree) {
    CleanStart(c.baseline, t, tree) && t.targetFiles == targets && Shows(c, t.contextFiles, targets, shown)
  }

  lemma TryOnceShows(c: Config, env: Environment, targets: seq<string>, shown: seq<ContextFile>, t: Ticket,
                     tree: Tree, n: nat)
    requires ShowingStart(c, targets, shown, t, tree)
    ensures AttemptShows(TryOnce(c, env, t, tree, n).attempt, shown)
  {
    FirstDispatchIsTheStart(c, env, t.targetFiles, n, 0, Desk(shown, c.baseline, t.contextFiles));
  }

  lemma TryOnceSavesWhatIsShown(c: Config, a: Ability, env: Environment, t: Ticket, tree: Tree, n: nat,
                                shown: seq<ContextFile>)
    requires ValidConfig(c) && Describes(a, c) && NothingCarried(c, a, env, t.targetFiles, shown)
    requires ShowingStart(c, t.targetFiles, shown, t, tree)
    ensures Shows(c, TryOnce(c, env, t, tree, n).ticket.contextFiles, t.targetFiles, shown)
  {
    GeneratingSavesWhatIsShown(c, a, env, t, n, shown);
  }

  lemma ShowingStartIsKept(c: Config, a: Ability, env: Environment, targets: seq<string>, shown: seq<ContextFile>,
                           u: Ticket, tree: Tree, m: nat)
    requires ValidConfig(c) && Describes(a, c) && NothingCarried(c, a, env, targets, shown)
    ensures var l := LoopOf(c, env);
            Keeps(l, (v: Ticket, other: Tree) => ShowingStart(c, targets, shown, v, other),
                  (attempt: Attempt) => AttemptShows(attempt, shown), u, tree, m)
  {
    var l := LoopOf(c, env);
    if ShowingStart(c, targets, shown, u, tree) {
      TryOnceShows(c, env, targets, shown, u, tree, m);
      TryOnceSavesWhatIsShown(c, a, env, u, tree, m, shown);
      var trial := TryOnce(c, env, u, tree, m);
      if TrialOf(u, trial) && trial.ending == Failed {
        FailureKeepsFiles(l, trial.ticket);
      }
    }
  }

  /** The context a run of this ticket should show at the start of every attempt: its own, refreshed from HEAD. */
  function ShownFirst(c: Config, t: Ticket): seq<ContextFile> {
    Refresh(c.paths, t.contextFiles, c.baseline, t.targetFiles)
  }

  /** All attempts of the run begin by showing the same context. */
  ghost predicate SameContext(c: Config, env: Environment, t: Ticket)
    requires Runnable(t) && (c.policy.Some? ==> ValidPolicy(c.policy.value))
  {
    LoopIsValid(c, env);
    var attempts := Run(LoopOf(c, env), t, c.baseline, 0).attempts;
    forall i :: 0 <= i < |attempts| ==> AttemptShows(attempts[i], ShownFirst(c, t))
  }

  /** A run that records no usage, or a ticket that can carry nothing over: all attempts show the same context. */
  lemma AttemptsShowTheSameContext(c: Config, a: Ability, env: Environment, t: Ticket)
    requires ValidConfig(c) && (c.policy.Some? ==> ValidPolicy(c.policy.value)) && Runnable(t)
    requires Describes(a, c) && NothingCarried(c, a, env, t.targetFiles, ShownFirst(c, t))
    ensures SameContext(c, env, t)
  {
    LoopIsValid(c, env);
    var l, targets, shown := LoopOf(c, env), t.targetFiles, ShownFirst(c, t);
    var start := (u: Ticket, other: Tree) => ShowingStart(c, targets, shown, u, other);
    var wanted := (attempt: Attempt) => AttemptShows(attempt, shown);
    forall u, other, m: nat ensures Keeps(l, start, wanted, u, other, m) {
      ShowingStartIsKept(c, a, env, targets, shown, u, other, m);
    }
    AllAttempts(l, start, wanted, t, c.baseline, 0);
    var attempts := Run(l, t, c.baseline, 0).attempts;
    forall i | 0 <= i < |attempts| ensures AttemptShows(attempts[i], shown) {
      assert wanted(attempts[i]);
    }
  }

  /** Nothing can be carried over by a ticket with a single attempt. */
  lemma OneAttemptShowsTheContext(c: Config, env: Environment, t: Ticket)
    requires ValidConfig(c) && (c.policy.Some? ==> ValidPolicy(c.policy.value)) && Runnable(t) && !CanRetry(c, t)
    ensures SameContext(c, env, t)
  {
    LoopIsValid(c, env);
    var l := LoopOf(c, env);
    TryOnceIsOf(c, env, t, c.baseline, 0);
    var trial := l.attempt(t, c.baseline, 0);
    assert !GoesOn(l, trial);
    TryOnceShows(c, env, t.targetFiles, ShownFirst(c, t), t, c.baseline, 0);
  }

  // ---------- Something is carried over ----------

  /** This answer for this target leads from one desk to the next. */
  predicate LeadsTo(c: Config, target: string, output: string, d: Desk, e: Desk) {
    var written := c.write(d.tree, target, TargetFileContent(c.paths, d.files, target), output);
    written.Wrote? && e == AfterWrite(c, d, target, written.text, d.saved)
  }

  /** The files written so far can be written again. */
  ghost predicate AllSettled(c: Config, a: Ability, targets: seq<string>, k: nat, d: Desk)
    requires k <= |targets|
  {
    forall i {:trigger targets[i]} :: 0 <= i < k ==>
      c.paths.norm(targets[i]) in d.tree && Settled(a, c.paths.norm(targets[i]), d.tree[c.paths.norm(targets[i])])
  }

  ghost predicate Reached(c: Config, a: Ability, targets: seq<string>, shown: seq<ContextFile>, k: nat, d: Desk)
    requires k <= |targets|
  {
    Follows(c, targets, shown, k, d) && AllSettled(c, a, targets, k, d)
  }

  ghost predicate Housed(c: Config, a: Ability) {
    forall n :: n in c.baseline ==> a.housed(n)
  }

  lemma NextCanBeWritten(c: Config, a: Ability, targets: seq<string>, shown: seq<ContextFile>, k: nat, d: Desk)
    requires Housed(c, a) && k < |targets| && Reached(c, a, targets, shown, k, d) && Passable(c, a, targets, shown, k)
    ensures var n := c.paths.norm(targets[k]);
            && a.can(TargetFileContent(c.paths, d.files, targets[k]), n, Current(d.tree, n))
            && (n in d.tree ==> a.housed(n))
            && (Untouched(c.paths, targets, k, n) ==> (n in d.tree <==> n in c.baseline))
  {
    var n := c.paths.norm(targets[k]);
    assert AsExpected(c, targets, shown, k, d, k);
    if !Untouched(c.paths, targets, k, n) {
      var i :| 0 <= i < k && c.paths.norm(targets[i]) == n;
      assert Settled(a, n, d.tree[n]);
      assert Current(d.tree, n) == Some(d.tree[n]);
    }
  }

  /** From a reached desk, some answer for the next target leads to a reached one; a new file becomes p. */
  lemma OneMore(c: Config, a: Ability, targets: seq<string>, shown: seq<ContextFile>, k: nat, d: Desk, p: string)
    returns (output: string, e: Desk)
    requires ValidPaths(c.paths) && Answerable(c, a) && Housed(c, a) && Letter(p)
    requires k < |targets| && Reached(c, a, targets, shown, k, d) && Passable(c, a, targets, shown, k)
    ensures LeadsTo(c, targets[k], output, d, e) && Reached(c, a, targets, shown, k + 1, e)
    ensures var n := c.paths.norm(targets[k]);
            n !in c.baseline && Untouched(c.paths, targets, k, n) ==> e == AfterWrite(c, d, targets[k], p, d.saved)
  {
    var n, content := c.paths.norm(targets[k]), TargetFileContent(c.paths, d.files, targets[k]);
    NextCanBeWritten(c, a, targets, shown, k, d);
    assert MayWrite(c, a, d.tree, targets[k], content, p);
    output :| Writes(c, a, d.tree, targets[k], content, p, output);
    var text := c.write(d.tree, targets[k], content, output).text;
    e := AfterWrite(c, d, targets[k], text, d.saved);
    WritingFollows(c, targets, shown, k, d, text, d.saved);
  }

  /** The desks of an attempt that is given these answers. */
  predicate Walk(c: Config, targets: seq<string>, answers: seq<string>, desks: seq<Desk>) {
    && |desks| == |answers| + 1 <= |targets| + 1
    && forall i :: 0 <= i < |answers| ==> LeadsTo(c, targets[i], answers[i], desks[i], desks[i + 1])
  }

  lemma WalkOn(c: Config, targets: seq<string>, answers: seq<string>, desks: seq<Desk>, output: string, e: Desk)
    requires Walk(c, targets, answers, desks) && |answers| < |targets|
    requires LeadsTo(c, targets[|answers|], output, desks[|answers|], e)
    ensures Walk(c, targets, answers + [output], desks + [e])
  {
    var longer, more := answers + [output], desks + [e];
    forall i | 0 <= i < |longer| ensures LeadsTo(c, targets[i], longer[i], more[i], more[i + 1]) {
      if i < |answers| {
        assert LeadsTo(c, targets[i], answers[i], desks[i], desks[i + 1]);
      }
    }
  }

  /** As long as all targets can be written, answers exist that write them. */
  lemma {:induction false} WalkTo(c: Config, a: Ability, targets: seq<string>, shown: seq<ContextFile>, start: Desk,
                                  k: nat, p: string)
    returns (answers: seq<string>, desks: seq<Desk>)
    requires ValidPaths(c.paths) && Answerable(c, a) && Housed(c, a) && Letter(p)
    requires k <= |targets| && Follows(c, targets, shown, 0, start) && AllPassable(c, a, targets, shown, k)
    ensures |answers| == k && Walk(c, targets, answers, desks)
    ensures desks[0] == start && Reached(c, a, targets, shown, k, desks[k])
  {
    if k == 0 {
      answers, desks := [], [start];
    } else {
      answers, desks := WalkTo(c, a, targets, shown, start, k - 1, p);
      assert Passable(c, a, targets, shown, k - 1);
      var output, e := OneMore(c, a, targets, shown, k - 1, desks[k - 1], p);
      WalkOn(c, targets, answers, desks, output, e);
      answers, desks := answers + [output], desks + [e];
    }
  }

  /** In the first attempt the models give these answers, then an empty one with which usage is reported.
      No test passes, and nobody cancels. */
  function Answering(answers: seq<string>): Environment {
    Environment(_ => false, (_, _) => false, _ => false,
                (n: nat, k: nat) => Some(if n == 0 && k < |answers| then answers[k] else ""),
                (n: nat, k: nat) => n == 0 && k == |answers|,
                _ => false, _ => map[])
  }

  lemma {:induction false} WalkIsSaved(c: Config, targets: seq<string>, answers: seq<string>, desks: seq<Desk>, k: nat)
    requires Walk(c, targets, answers, desks) && k <= |answers| < |targets|
    requires var d := desks[|answers|];
             var target := targets[|answers|];
             c.write(d.tree, target, TargetFileContent(c.paths, d.files, target), "") == WriteError
    ensures var g := Generate(c, Answering(answers), targets, 0, k, desks[k]);
            g.end == WriteFailed && g.desk.saved == desks[|answers|].files
    decreases |answers| - k
  {
    if k < |answers| {
      assert LeadsTo(c, targets[k], answers[k], desks[k], desks[k + 1]);
      WalkIsSaved(c, targets, answers, desks, k + 1);
    }
  }

  /** There is a first target at which something is carried over, and its file was not written before. */
  lemma FirstCarry(c: Config, a: Ability, targets: seq<string>, shown: seq<ContextFile>, j: nat) returns (i: nat)
    requires CarriesAt(c, a, targets, shown, j)
    ensures CarriesAt(c, a, targets, shown, i) && Untouched(c.paths, targets, i, c.paths.norm(targets[i]))
  {
    if Untouched(c.paths, targets, j, c.paths.norm(targets[j])) {
      i := j;
    } else {
      var earlier :| 0 <= earlier < j && c.paths.norm(targets[earlier]) == c.paths.norm(targets[j]);
      i := FirstCarry(c, a, targets, shown, earlier);
    }
  }

  /** A letter that the last snapshot of this path does not hold. */
  function OtherLetter(paths: Paths, files: seq<ContextFile>, n: string): (p: string)
    ensures Letter(p)
  {
    var i := LastSnapshot(paths, files, n);
    if i >= 0 && files[i].content == "x" then "y" else "x"
  }

  /** These files hold a text for this target, which is missing at HEAD, that the context shown does not hold for it. */
  predicate HoldsNewText(c: Config, files: seq<ContextFile>, target: string, shown: seq<ContextFile>) {
    var n := c.paths.norm(target);
    var i, s := LastSnapshot(c.paths, files, n), LastSnapshot(c.paths, shown, n);
    n !in c.baseline && i >= 0 && (s >= 0 ==> files[i].content != shown[s].content)
  }

  /** Refreshed from HEAD, they still do, for some target. */
  predicate Strays(c: Config, files: seq<ContextFile>, targets: seq<string>, shown: seq<ContextFile>) {
    exists j :: 0 <= j < |targets| && HoldsNewText(c, Refresh(c.paths, files, c.baseline, targets), targets[j], shown)
  }

  /** A new file with a new text stays in the context when it is refreshed from HEAD. */
  lemma NewFileStays(c: Config, targets: seq<string>, shown: seq<ContextFile>, d: Desk, j: nat, saved: seq<ContextFile>)
    requires j < |targets| && ValidPaths(c.paths)
    requires c.paths.inside(c.paths.norm(targets[j])) && c.paths.norm(targets[j]) !in c.baseline
    ensures var p := OtherLetter(c.paths, shown, c.paths.norm(targets[j]));
            Strays(c, AfterWrite(c, d, targets[j], p, saved).files, targets, shown)
  {
    var n := c.paths.norm(targets[j]);
    var e := AfterWrite(c, d, targets[j], OtherLetter(c.paths, shown, n), saved);
    RefreshOneRow(c.paths, d.files, e.tree, targets[j], n);
    RefreshLeavesMissing(c.paths, e.files, c.baseline, targets, n);
    assert HoldsNewText(c, Refresh(c.paths, e.files, c.baseline, targets), targets[j], shown);
  }

  /** Answers that write a new file so that a refresh from HEAD does not undo it. */
  lemma WalkToTheNewFile(c: Config, a: Ability, targets: seq<string>, shown: seq<ContextFile>, start: Desk, j: nat)
    returns (answers: seq<string>, desks: seq<Desk>)
    requires ValidConfig(c) && Answerable(c, a) && Housed(c, a)
    requires CarriesAt(c, a, targets, shown, j) && Untouched(c.paths, targets, j, c.paths.norm(targets[j]))
    requires Follows(c, targets, shown, 0, start)
    ensures |answers| == j + 1 && Walk(c, targets, answers, desks) && desks[0] == start
    ensures Strays(c, desks[j + 1].files, targets, shown)
  {
    var n := c.paths.norm(targets[j]);
    var p := OtherLetter(c.paths, shown, n);
    answers, desks := WalkTo(c, a, targets, shown, start, j, p);
    assert Passable(c, a, targets, shown, j);
    var d := desks[j];
    var output, e := OneMore(c, a, targets, shown, j, d, p);
    WalkOn(c, targets, answers, desks, output, e);
    assert c.write(d.tree, targets[j], TargetFileContent(c.paths, d.files, targets[j]), output).Wrote?;
    NewFileStays(c, targets, shown, d, j, d.saved);
    answers, desks := answers + [output], desks + [e];
  }

  lemma WalkFailsTheAttempt(c: Config, t: Ticket, answers: seq<string>, desks: seq<Desk>)
    requires Walk(c, t.targetFiles, answers, desks) && |answers| < |t.targetFiles|
    requires desks[0] == Desk(ShownFirst(c, t), c.baseline, t.contextFiles)
    requires var d, target := desks[|answers|], t.targetFiles[|answers|];
             c.write(d.tree, target, TargetFileContent(c.paths, d.files, target), "") == WriteError
    ensures var trial := TryOnce(c, Answering(answers), t, c.baseline, 0);
            trial.ending == Failed && trial.ticket.contextFiles == desks[|answers|].files
  {
    WalkIsSaved(c, t.targetFiles, answers, desks, 0);
  }

  /** A first attempt that fails and saves a context which, refreshed from HEAD, still holds what it wrote. */
  lemma SomeAttemptSavesAnotherContext(c: Config, a: Ability, t: Ticket) returns (env: Environment)
    requires ValidConfig(c) && Describes(a, c) && Answerable(c, a) && Housed(c, a)
    requires CanCarry(c, a, t.targetFiles, ShownFirst(c, t))
    ensures env.cancelledAtStart(0) == env.cancelledAtStart(1) == env.cancelledBefore(1, 0) == false
    ensures var trial := TryOnce(c, env, t, c.baseline, 0);
            trial.ending == Failed && Strays(c, trial.ticket.contextFiles, t.targetFiles, ShownFirst(c, t))
  {
    var targets, shown := t.targetFiles, ShownFirst(c, t);
    var start := Desk(shown, c.baseline, t.contextFiles);
    StartIsForeseen(c, a, t.contextFiles, targets, shown, t.contextFiles);
    var some :| 0 <= some < |targets| && CarriesAt(c, a, targets, shown, some);
    var j := FirstCarry(c, a, targets, shown, some);
    var answers, desks := WalkToTheNewFile(c, a, targets, shown, start, j);
    var e := desks[j + 1];
    assert Able(c, a, e.tree, targets[j + 1], TargetFileContent(c.paths, e.files, targets[j + 1]), "");
    WalkFailsTheAttempt(c, t, answers, desks);
    env := Answering(answers);
  }

  /** When the run goes on after the first attempt, the second one is made for the updated ticket. */
  lemma SecondAttempt(l: Loop, t: Ticket, tree: Tree)
    requires ValidLoop(l) && Runnable(t) && !l.cancelled(0) && !l.cancelled(1) && GoesOn(l, l.attempt(t, tree, 0))
    ensures var attempts := Run(l, t, tree, 0).attempts;
            |attempts| >= 2
            && attempts[1] == l.attempt(l.fail(l.attempt(t, tree, 0).ticket), l.baseline, 1).attempt
  {
    var trial := l.attempt(t, tree, 0);
    RunBeginsWith(l, l.fail(trial.ticket), l.baseline, 1);
  }

  lemma RetryShowsTheSavedContext(c: Config, env: Environment, t: Ticket)
    requires t.targetFiles != [] && !env.cancelledBefore(1, 0)
    ensures var attempt := TryOnce(c, env, t, c.baseline, 1).attempt;
            && attempt.start == c.baseline && attempt.dispatches != []
            && attempt.dispatches[0].files == Refresh(c.paths, t.contextFiles, c.baseline, t.targetFiles)
  {
    SomethingIsDispatched(c, env, t.targetFiles, 1, Desk(ShownFirst(c, t), c.baseline, t.contextFiles));
  }

  /** The second attempt begins without the file that the first one wrote, but is shown its text. */
  predicate CarriedOver(c: Config, attempts: seq<Attempt>, targets: seq<string>, shown: seq<ContextFile>) {
    && |attempts| >= 2 && attempts[1].start == c.baseline && attempts[1].dispatches != []
    && exists j :: 0 <= j < |targets| && HoldsNewText(c, attempts[1].dispatches[0].files, targets[j], shown)
  }

  lemma FailureGoesOn(c: Config, env: Environment, t: Ticket, trial: Trial)
    requires Runnable(t) && CanRetry(c, t) && TrialOf(t, trial) && trial.ending == Failed
    ensures var l := LoopOf(c, env);
            && GoesOn(l, trial)
            && l.fail(trial.ticket).targetFiles == t.targetFiles
            && l.fail(trial.ticket).contextFiles == trial.ticket.contextFiles
  {
    FailureKeepsFiles(LoopOf(c, env), trial.ticket);
  }

  /** After a first attempt that fails, the retry begins with the context it saved, refreshed from HEAD. */
  lemma RetryFollows(c: Config, env: Environment, t: Ticket)
    requires (c.policy.Some? ==> ValidPolicy(c.policy.value)) && Runnable(t) && t.targetFiles != [] && CanRetry(c, t)
    requires env.cancelledAtStart(0) == env.cancelledAtStart(1) == env.cancelledBefore(1, 0) == false
    requires TryOnce(c, env, t, c.baseline, 0).ending == Failed
    ensures ValidLoop(LoopOf(c, env))
    ensures var attempts := Run(LoopOf(c, env), t, c.baseline, 0).attempts;
            var saved := TryOnce(c, env, t, c.baseline, 0).ticket.contextFiles;
            && |attempts| >= 2 && attempts[1].start == c.baseline && attempts[1].dispatches != []
            && attempts[1].dispatches[0].files == Refresh(c.paths, saved, c.baseline, t.targetFiles)
  {
    LoopIsValid(c, env);
    var l := LoopOf(c, env);
    TryOnceIsOf(c, env, t, c.baseline, 0);
    var trial := TryOnce(c, env, t, c.baseline, 0);
    FailureGoesOn(c, env, t, trial);
    SecondAttempt(l, t, c.baseline);
    RetryShowsTheSavedContext(c, env, l.fail(trial.ticket));
  }

  lemma CarryingShowsAnotherContext(c: Config, a: Ability, t: Ticket) returns (env: Environment)
    requires ValidConfig(c) && (c.policy.Some? ==> ValidPolicy(c.policy.value)) && Runnable(t)
    requires Describes(a, c) && Answerable(c, a) && Housed(c, a)
    requires CanRetry(c, t) && CanCarry(c, a, t.targetFiles, ShownFirst(c, t))
    ensures ValidLoop(LoopOf(c, env))
    ensures CarriedOver(c, Run(LoopOf(c, env), t, c.baseline, 0).attempts, t.targetFiles, ShownFirst(c, t))
  {
    env := SomeAttemptSavesAnotherContext(c, a, t);
    RetryFollows(c, env, t);
  }

  lemma CarriedOverIsNotTheSame(c: Config, env: Environment, t: Ticket)
    requires (c.policy.Some? ==> ValidPolicy(c.policy.value)) && Runnable(t) && ValidLoop(LoopOf(c, env))
    requires CarriedOver(c, Run(LoopOf(c, env), t, c.baseline, 0).attempts, t.targetFiles, ShownFirst(c, t))
    ensures !SameContext(c, env, t)
  {
    var attempts := Run(LoopOf(c, env), t, c.baseline, 0).attempts;
    assert !AttemptShows(attempts[1], ShownFirst(c, t));
  }

  // ---------- The exact condition ----------

  /** All attempts of every run of this ticket begin by showing the same context, unless it has a second
      attempt and something can be carried over: some target before the last one is missing at HEAD, and it
      and every target before it can be written. */
  lemma SameContextIff(inside: string -> bool, w: WriterSettings, policy: Option<Policy>, baseline: Tree, t: Ticket)
    requires (policy.Some? ==> ValidPolicy(policy.value)) && Runnable(t) && Ordinary(w, baseline)
    ensures var c := RepositoryConfig(inside, w, policy, baseline);
            (forall env :: SameContext(c, env, t))
            <==> !(CanRetry(c, t) && CanCarry(c, RepositoryAbility(inside, w), t.targetFiles, ShownFirst(c, t)))
  {
    var c, a := RepositoryConfig(inside, w, policy, baseline), RepositoryAbility(inside, w);
    RepositoryConfigIsValid(inside, w, policy, baseline);
    RepositoryAbilityDescribes(inside, w, c);
    RepositoryAnswers(inside, w, c);
    if CanRetry(c, t) && CanCarry(c, a, t.targetFiles, ShownFirst(c, t)) {
      var env := CarryingShowsAnotherContext(c, a, t);
      CarriedOverIsNotTheSame(c, env, t);
    } else {
      forall env ensures SameContext(c, env, t) {
        if CanRetry(c, t) {
          AttemptsShowTheSameContext(c, a, env, t);
        } else {
          OneAttemptShowsTheContext(c, env, t);
        }
      }
    }
  }

  // ---------- A ticket that carries a file over ----------

  function TwoNewFiles(): Ticket {
    Ticket("T-001", InProgress, [], [], ["a", "b"], [], Execution("openai:m", 1, 0),
           Metadata(None, GitTrail(false, false, false, false), false, None, false, Decisions(false, false, false)))
  }

  const DEFAULT_LIMITS := WriterSettings(s => s, _ => true, 2048, 4096)

  lemma SmallSnapshotsAreNotPatched(content: string)
    requires |content| <= 1
    ensures !PatchMode(DEFAULT_LIMITS, content)
  {
    PatchModeIff(DEFAULT_LIMITS, content);
  }

  /** Two new files in an empty repository: in some run the retry is shown the first file that the failed
      attempt wrote, although its worktree does not have it. */
  lemma CarryOverHappens() returns (env: Environment)
    ensures var c, t := RepositoryConfig(_ => true, DEFAULT_LIMITS, None, map[]), TwoNewFiles();
            && Runnable(t) && ValidLoop(LoopOf(c, env))
            && CarriedOver(c, Run(LoopOf(c, env), t, map[], 0).attempts, ["a", "b"], [])
            && !SameContext(c, env, t)
  {
    var inside, t := (_: string) => true, TwoNewFiles();
    var c, a := RepositoryConfig(inside, DEFAULT_LIMITS, None, map[]), RepositoryAbility(inside, DEFAULT_LIMITS);
    assert Refresh(c.paths, [], map[], ["a"]) == [] && t.targetFiles[..1] == ["a"];
    assert ShownFirst(c, t) == [];
    SmallSnapshotsAreNotPatched("");
    assert Passable(c, a, t.targetFiles, [], 0);
    assert CarriesAt(c, a, t.targetFiles, [], 0);
    RepositoryConfigIsValid(inside, DEFAULT_LIMITS, None, map[]);
    RepositoryAbilityDescribes(inside, DEFAULT_LIMITS, c);
    RepositoryAnswers(inside, DEFAULT_LIMITS, c);
    env := CarryingShowsAnotherContext(c, a, t);
    CarriedOverIsNotTheSame(c, env, t);
  }
}
