/** How a run ends, told by what the environment did and by what the attempts' dispatches wrote. */
module AttemptEndings {
  import opened Basics
  import opened Tickets
  import opened ModelPolicy
  import opened TargetContext
  import opened ExecutionAttempt
  import opened ExecutionRun
  import opened ExecutionProperties

  /** What came of dispatch k of attempt n, made at desk d, if the model answered. */
  function WrittenAt(c: Config, env: Environment, targets: seq<string>, n: nat, k: nat, d: Desk): Option<WriteResult>
    requires k < |targets|
  {
    match env.output(n, k)
    case None => None
    case Some(output) => Some(c.write(d.tree, targets[k], TargetFileContent(c.paths, d.files, targets[k]), output))
  }

  /** Dispatch k was not preceded by a cancellation and wrote its target. */
  predicate Wrote(c: Config, env: Environment, targets: seq<string>, n: nat, k: nat, d: Desk)
    requires k < |targets|
  {
    var written := WrittenAt(c, env, targets, n, k, d);
    !env.cancelledBefore(n, k) && written.Some? && written.value.Wrote?
  }

  /** The dispatches from target k on, of which all but the last one wrote their targets; each of them finds what
      the one before it wrote. */
  predicate Chained(c: Config, env: Environment, targets: seq<string>, n: nat, k: nat, desks: seq<Desk>) {
    && k + |desks| <= |targets|
    && forall j :: 0 <= j < |desks| - 1 ==>
         && Wrote(c, env, targets, n, k + j, desks[j])
         && desks[j + 1].tree == desks[j].tree[
              c.paths.norm(targets[k + j]) := WrittenAt(c, env, targets, n, k + j, desks[j]).value.text]
  }

  /** Every target from k on was written. */
  predicate AllWrote(c: Config, env: Environment, targets: seq<string>, n: nat, k: nat, desks: seq<Desk>) {
    && k + |desks| == |targets| && Chained(c, env, targets, n, k, desks)
    && (desks != [] ==> Wrote(c, env, targets, n, |targets| - 1, desks[|desks| - 1]))
  }

  /** The last dispatch had an answer that could not be written. */
  predicate LastFailed(c: Config, env: Environment, targets: seq<string>, n: nat, k: nat, desks: seq<Desk>) {
    && desks != [] && Chained(c, env, targets, n, k, desks)
    && !env.cancelledBefore(n, k + |desks| - 1)
    && WrittenAt(c, env, targets, n, k + |desks| - 1, desks[|desks| - 1]) == Some(WriteError)
  }

  /** The last dispatch had no answer, or one that ends the run. */
  predicate LastBroke(c: Config, env: Environment, targets: seq<string>, n: nat, k: nat, desks: seq<Desk>) {
    && desks != [] && Chained(c, env, targets, n, k, desks)
    && !env.cancelledBefore(n, k + |desks| - 1)
    && WrittenAt(c, env, targets, n, k + |desks| - 1, desks[|desks| - 1]) in {None, Some(Crash)}
  }

  /** The user cancelled before the next dispatch. */
  predicate StoppedBefore(c: Config, env: Environment, targets: seq<string>, n: nat, k: nat, desks: seq<Desk>) {
    && k + |desks| < |targets| && Chained(c, env, targets, n, k, desks) && env.cancelledBefore(n, k + |desks|)
    && (desks != [] ==> Wrote(c, env, targets, n, k + |desks| - 1, desks[|desks| - 1]))
  }

  // ---------- One attempt ----------

  /** All files were written, nobody cancelled, and the tests passed. */
  predicate Passed(c: Config, env: Environment, targets: seq<string>, n: nat, a: Attempt) {
    AllWrote(c, env, targets, n, 0, a.dispatches) && !env.cancelledAfter(n) && env.testsPass(n)
  }

  /** Nobody cancelled, and a file could not be written or the tests failed. */
  predicate Fell(c: Config, env: Environment, targets: seq<string>, n: nat, a: Attempt) {
    && !env.cancelledAfter(n)
    && (LastFailed(c, env, targets, n, 0, a.dispatches)
        || (AllWrote(c, env, targets, n, 0, a.dispatches) && !env.testsPass(n)))
  }

  predicate Abandoned(c: Config, env: Environment, targets: seq<string>, n: nat, a: Attempt) {
    || StoppedBefore(c, env, targets, n, 0, a.dispatches)
    || (env.cancelledAfter(n)
        && (AllWrote(c, env, targets, n, 0, a.dispatches) || LastFailed(c, env, targets, n, 0, a.dispatches)))
  }

  /** The ending of an attempt, judged by these conditions. */
  predicate Judged(c: Config, env: Environment, targets: seq<string>, n: nat, ending: Ending, a: Attempt) {
    && (a.dispatches != [] ==> a.dispatches[0].tree == a.start)
    && match ending
       case DiffReady => Passed(c, env, targets, n, a)
       case Failed => Fell(c, env, targets, n, a)
       case Cancelled => Abandoned(c, env, targets, n, a)
       case Crashed => LastBroke(c, env, targets, n, 0, a.dispatches)
  }

  /** An attempt has one ending only. */
  lemma JudgedOnce(c: Config, env: Environment, targets: seq<string>, n: nat, ending: Ending, other: Ending, a: Attempt)
    requires Judged(c, env, targets, n, ending, a) && Judged(c, env, targets, n, other, a)
    ensures ending == other
  {
    var desks := a.dispatches;
    if desks != [] {
      var last := |desks| - 1;
      assert 0 + |desks| - 1 == last;
    }
  }

  lemma ChainedOn(c: Config, env: Environment, targets: seq<string>, n: nat, k: nat, d: Desk, later: seq<Desk>)
    requires k < |targets| && Wrote(c, env, targets, n, k, d)
    requires Chained(c, env, targets, n, k + 1, later)
    requires later != [] ==>
      later[0].tree == d.tree[c.paths.norm(targets[k]) := WrittenAt(c, env, targets, n, k, d).value.text]
    ensures Chained(c, env, targets, n, k, [d] + later)
  {
    var desks := [d] + later;
    forall j | 0 <= j < |desks| - 1
      ensures Wrote(c, env, targets, n, k + j, desks[j])
      ensures desks[j + 1].tree == desks[j].tree[
                c.paths.norm(targets[k + j]) := WrittenAt(c, env, targets, n, k + j, desks[j]).value.text]
    {
      if j > 0 {
        assert desks[j] == later[j - 1] && desks[j + 1] == later[j] && k + j == (k + 1) + (j - 1);
        assert Wrote(c, env, targets, n, (k + 1) + (j - 1), later[j - 1]);
      }
    }
  }

  /** What a generation from target k on shows in its dispatches. */
  predicate Shown(c: Config, env: Environment, targets: seq<string>, n: nat, k: nat, d: Desk, g: Generation) {
    && (g.dispatches != [] ==> g.dispatches[0] == d)
    && match g.end
       case AllWritten => AllWrote(c, env, targets, n, k, g.dispatches)
       case WriteFailed => LastFailed(c, env, targets, n, k, g.dispatches)
       case Broken => LastBroke(c, env, targets, n, k, g.dispatches)
       case Stopped => StoppedBefore(c, env, targets, n, k, g.dispatches)
  }

  lemma LaterIsShown(c: Config, env: Environment, targets: seq<string>, n: nat, k: nat, d: Desk, e: Desk, g: Generation)
    requires k < |targets| && Wrote(c, env, targets, n, k, d) && Shown(c, env, targets, n, k + 1, e, g)
    requires e.tree == d.tree[c.paths.norm(targets[k]) := WrittenAt(c, env, targets, n, k, d).value.text]
    ensures Shown(c, env, targets, n, k, d, g.(dispatches := [d] + g.dispatches))
  {
    var desks := [d] + g.dispatches;
    ChainedOn(c, env, targets, n, k, d, g.dispatches);
    assert desks[|desks| - 1] == if g.dispatches == [] then d else g.dispatches[|g.dispatches| - 1];
  }

  lemma {:induction false} GenerationIsShown(c: Config, env: Environment, targets: seq<string>, n: nat, k: nat, d: Desk)
    requires k <= |targets|
    ensures Shown(c, env, targets, n, k, d, Generate(c, env, targets, n, k, d))
    decreases |targets| - k
  {
    if k < |targets| && !env.cancelledBefore(n, k) {
      var first := Dispatch(c, env, targets[k], n, k, d);
      if first.end == AllWritten {
        GenerationIsShown(c, env, targets, n, k + 1, first.desk);
        LaterIsShown(c, env, targets, n, k, d, first.desk, Generate(c, env, targets, n, k + 1, first.desk));
      }
    }
  }

  lemma AttemptIsJudged(c: Config, env: Environment, t: Ticket, tree: Tree, n: nat)
    ensures var trial := TryOnce(c, env, t, tree, n);
            Judged(c, env, t.targetFiles, n, trial.ending, trial.attempt)
  {
    var start := StartTree(c, t, tree);
    var files := Refresh(c.paths, t.contextFiles, start, t.targetFiles);
    GenerationIsShown(c, env, t.targetFiles, n, 0, Desk(files, start, t.contextFiles));
  }

  // ---------- A whole run ----------

  predicate NotCancelledAt(l: Loop, n: nat, i: nat) {
    !l.cancelled(n + i)
  }

  predicate JudgedAt(judged: (nat, Ending, Attempt) -> bool, n: nat, ending: Ending, attempts: seq<Attempt>, i: nat)
    requires i < |attempts|
  {
    judged(n + i, ending, attempts[i])
  }

  /** The attempts from number n on: all but the last one failed; the last one is judged as the run ended, unless
      the user cancelled before the next one. */
  predicate EndsJudged(l: Loop, judged: (nat, Ending, Attempt) -> bool, n: nat, r: Outcome) {
    var count := |r.attempts|;
    && (forall i :: 0 <= i < count ==> NotCancelledAt(l, n, i))
    && (forall i :: 0 <= i < count - 1 ==> JudgedAt(judged, n, Failed, r.attempts, i))
    && ((count > 0 && JudgedAt(judged, n, r.ending, r.attempts, count - 1))
        || (r.ending == Cancelled && !NotCancelledAt(l, n, count)
            && (count > 0 ==> JudgedAt(judged, n, Failed, r.attempts, count - 1))))
  }

  lemma OneEarlier(l: Loop, judged: (nat, Ending, Attempt) -> bool, n: nat, a: Attempt, later: seq<Attempt>, i: nat)
    requires i > 0
    ensures NotCancelledAt(l, n, i) <==> NotCancelledAt(l, n + 1, i - 1)
    ensures i <= |later| ==> forall ending ::
              JudgedAt(judged, n, ending, [a] + later, i) <==> JudgedAt(judged, n + 1, ending, later, i - 1)
  {
    assert n + i == (n + 1) + (i - 1);
  }

  lemma PrependIsJudged(l: Loop, judged: (nat, Ending, Attempt) -> bool, n: nat, a: Attempt, later: Outcome)
    requires !l.cancelled(n) && judged(n, Failed, a) && EndsJudged(l, judged, n + 1, later)
    ensures EndsJudged(l, judged, n, Prepend([a], later))
  {
    var r := Prepend([a], later);
    var count := |r.attempts|;
    assert NotCancelledAt(l, n, 0) && JudgedAt(judged, n, Failed, r.attempts, 0);
    forall i | 0 <= i < count ensures NotCancelledAt(l, n, i) {
      if i > 0 {
        OneEarlier(l, judged, n, a, later.attempts, i);
        assert NotCancelledAt(l, n + 1, i - 1);
      }
    }
    forall i | 0 <= i < count - 1 ensures JudgedAt(judged, n, Failed, r.attempts, i) {
      if i > 0 {
        OneEarlier(l, judged, n, a, later.attempts, i);
        assert JudgedAt(judged, n + 1, Failed, later.attempts, i - 1);
      }
    }
    OneEarlier(l, judged, n, a, later.attempts, count);
    if count > 1 {
      OneEarlier(l, judged, n, a, later.attempts, count - 1);
    }
  }

  ghost predicate AttemptsJudged(l: Loop, targets: seq<string>, judged: (nat, Ending, Attempt) -> bool) {
    forall u: Ticket, other, m {:trigger l.attempt(u, other, m)} ::
      Runnable(u) && u.targetFiles == targets ==>
        judged(m, l.attempt(u, other, m).ending, l.attempt(u, other, m).attempt)
  }

  ghost predicate TargetsKept(l: Loop) {
    forall u: Ticket {:trigger l.fail(u)} :: u.status == Testing ==> l.fail(u).targetFiles == u.targetFiles
  }

  lemma {:induction false} RunIsJudged(l: Loop, targets: seq<string>, judged: (nat, Ending, Attempt) -> bool, t: Ticket,
                                       tree: Tree, n: nat)
    requires ValidLoop(l) && Runnable(t) && t.targetFiles == targets
    requires AttemptsJudged(l, targets, judged) && TargetsKept(l)
    ensures EndsJudged(l, judged, n, Run(l, t, tree, n))
    decreases |l.later(t.execution.assignedModel)|, RetriesLeft(t)
  {
    if !l.cancelled(n) {
      var trial := l.attempt(t, tree, n);
      if GoesOn(l, trial) {
        RunIsJudged(l, targets, judged, l.fail(trial.ticket), l.baseline, n + 1);
        PrependIsJudged(l, judged, n, trial.attempt, Run(l, l.fail(trial.ticket), l.baseline, n + 1));
      } else {
        assert NotCancelledAt(l, n, 0) && JudgedAt(judged, n, trial.ending, [trial.attempt], 0);
      }
    }
  }

  function Judging(c: Config, env: Environment, targets: seq<string>): (nat, Ending, Attempt) -> bool {
    (n: nat, ending: Ending, a: Attempt) => Judged(c, env, targets, n, ending, a)
  }

  lemma LoopIsJudged(c: Config, env: Environment, targets: seq<string>)
    ensures AttemptsJudged(LoopOf(c, env), targets, Judging(c, env, targets)) && TargetsKept(LoopOf(c, env))
  {
    var l := LoopOf(c, env);
    forall u: Ticket, other, m: nat | Runnable(u) && u.targetFiles == targets
      ensures Judged(c, env, targets, m, l.attempt(u, other, m).ending, l.attempt(u, other, m).attempt)
    {
      AttemptIsJudged(c, env, u, other, m);
    }
    forall u: Ticket | u.status == Testing ensures l.fail(u).targetFiles == u.targetFiles {
      FailureKeepsFiles(l, u);
    }
  }

  /** How the run ended, given what happened in it: it passes exactly when its last attempt wrote every target, was
      not cancelled, and its tests passed; every earlier attempt could not write a file or failed its tests. */
  predicate EndsByItsAttempts(c: Config, env: Environment, targets: seq<string>, ending: Ending,
                              attempts: seq<Attempt>)
  {
    var count := |attempts|;
    && (forall i :: 0 <= i < count ==> !env.cancelledAtStart(i))
    && (forall i :: 0 <= i < count - 1 ==> Fell(c, env, targets, i, attempts[i]))
    && (forall i :: 0 <= i < count && attempts[i].dispatches != [] ==>
          attempts[i].dispatches[0].tree == attempts[i].start)
    && (ending == DiffReady <==> count > 0 && Passed(c, env, targets, count - 1, attempts[count - 1]))
    && (ending == Crashed <==> count > 0 && LastBroke(c, env, targets, count - 1, 0, attempts[count - 1].dispatches))
    && (ending == Failed ==> count > 0 && Fell(c, env, targets, count - 1, attempts[count - 1]))
    && (ending == Cancelled ==>
          || (count > 0 && Abandoned(c, env, targets, count - 1, attempts[count - 1]))
          || (env.cancelledAtStart(count) && (count > 0 ==> Fell(c, env, targets, count - 1, attempts[count - 1]))))
  }

  lemma AllAreJudged(c: Config, env: Environment, targets: seq<string>, r: Outcome, i: nat)
    requires EndsJudged(LoopOf(c, env), Judging(c, env, targets), 0, r) && i < |r.attempts|
    ensures !env.cancelledAtStart(i)
    ensures i < |r.attempts| - 1 ==> Judged(c, env, targets, i, Failed, r.attempts[i])
    ensures i == |r.attempts| - 1 ==>
      || Judged(c, env, targets, i, r.ending, r.attempts[i])
      || (r.ending == Cancelled && env.cancelledAtStart(|r.attempts|)
          && Judged(c, env, targets, i, Failed, r.attempts[i]))
  {
    var l, judged := LoopOf(c, env), Judging(c, env, targets);
    assert NotCancelledAt(l, 0, i);
    if i < |r.attempts| - 1 {
      assert JudgedAt(judged, 0, Failed, r.attempts, i);
    }
  }

  lemma JudgedMeans(c: Config, env: Environment, targets: seq<string>, r: Outcome)
    requires EndsJudged(LoopOf(c, env), Judging(c, env, targets), 0, r)
    ensures EndsByItsAttempts(c, env, targets, r.ending, r.attempts)
  {
    var count := |r.attempts|;
    forall i | 0 <= i < count
      ensures !env.cancelledAtStart(i)
      ensures i < count - 1 ==> Fell(c, env, targets, i, r.attempts[i])
      ensures r.attempts[i].dispatches != [] ==> r.attempts[i].dispatches[0].tree == r.attempts[i].start
    {
      AllAreJudged(c, env, targets, r, i);
    }
    if count > 0 {
      var last := count - 1;
      AllAreJudged(c, env, targets, r, last);
      var ending := if Judged(c, env, targets, last, r.ending, r.attempts[last]) then r.ending else Failed;
      LastHasOneEnding(c, env, targets, last, ending, r.attempts[last]);
    }
  }

  lemma LastHasOneEnding(c: Config, env: Environment, targets: seq<string>, n: nat, ending: Ending, a: Attempt)
    requires Judged(c, env, targets, n, ending, a)
    ensures Passed(c, env, targets, n, a) <==> ending == DiffReady
    ensures LastBroke(c, env, targets, n, 0, a.dispatches) <==> ending == Crashed
  {
    if Passed(c, env, targets, n, a) {
      JudgedOnce(c, env, targets, n, ending, DiffReady, a);
    }
    if LastBroke(c, env, targets, n, 0, a.dispatches) {
      JudgedOnce(c, env, targets, n, ending, Crashed, a);
    }
  }

  /** Every run ends by its attempts: its ticket waits for the diff to be approved exactly when it passed. */
  lemma RunEndsByItsAttempts(c: Config, env: Environment, t: Ticket, tree: Tree)
    requires (c.policy.Some? ==> ValidPolicy(c.policy.value)) && Runnable(t)
    ensures ValidLoop(LoopOf(c, env))
    ensures var r := Run(LoopOf(c, env), t, tree, 0);
            && EndsByItsAttempts(c, env, t.targetFiles, r.ending, r.attempts)
            && r.ticket.id == t.id
            && match r.ending
               case DiffReady => r.ticket.status == DiffPending
               case Failed => r.ticket.status == Blocked
               case _ => r.ticket.status == InProgress || r.ticket.status == Testing
  {
    LoopIsValid(c, env);
    var l := LoopOf(c, env);
    LoopIsJudged(c, env, t.targetFiles);
    RunIsJudged(l, t.targetFiles, Judging(c, env, t.targetFiles), t, tree, 0);
    JudgedMeans(c, env, t.targetFiles, Run(l, t, tree, 0));
    RunFollowsThePlan(l, t, tree, 0);
    RunKeepsId(l, t, tree, 0);
  }

  /** After a run that passed, the worktree is what the last attempt's tests left. */
  predicate HasTestedTree(tested: nat -> Tree, n: nat, r: Outcome) {
    r.ending == DiffReady ==> r.attempts != [] && r.tree == tested(n + |r.attempts| - 1)
  }

  ghost predicate LeavesTested(l: Loop, tested: nat -> Tree) {
    forall u: Ticket, other, m {:trigger l.attempt(u, other, m)} ::
      l.attempt(u, other, m).ending == DiffReady ==> l.attempt(u, other, m).tree == tested(m)
  }

  lemma {:induction false} TreeOfTheLastStays(l: Loop, tested: nat -> Tree, t: Ticket, tree: Tree, n: nat)
    requires ValidLoop(l) && LeavesTested(l, tested) && Runnable(t)
    ensures HasTestedTree(tested, n, Run(l, t, tree, n))
    decreases |l.later(t.execution.assignedModel)|, RetriesLeft(t)
  {
    if !l.cancelled(n) {
      var trial := l.attempt(t, tree, n);
      if GoesOn(l, trial) {
        var next := l.fail(trial.ticket);
        TreeOfTheLastStays(l, tested, next, l.baseline, n + 1);
        var later := Run(l, next, l.baseline, n + 1);
        assert n + |Prepend([trial.attempt], later).attempts| - 1 == n + 1 + |later.attempts| - 1;
      }
    }
  }

  lemma TryLeavesTested(c: Config, env: Environment, t: Ticket, tree: Tree, n: nat)
    ensures TryOnce(c, env, t, tree, n).ending == DiffReady ==> TryOnce(c, env, t, tree, n).tree == env.afterTests(n)
  {
  }

  lemma LoopLeavesTested(c: Config, env: Environment)
    ensures LeavesTested(LoopOf(c, env), env.afterTests)
  {
    var l := LoopOf(c, env);
    forall u: Ticket, other, m: nat | l.attempt(u, other, m).ending == DiffReady
      ensures l.attempt(u, other, m).tree == env.afterTests(m)
    {
      TryLeavesTested(c, env, u, other, m);
    }
  }

  /** What the tests of the last attempt leave in the worktree is there at the end of a run that passed. */
  lemma TestedTreeStays(c: Config, env: Environment, t: Ticket, tree: Tree)
    requires (c.policy.Some? ==> ValidPolicy(c.policy.value)) && Runnable(t)
    ensures ValidLoop(LoopOf(c, env)) && HasTestedTree(env.afterTests, 0, Run(LoopOf(c, env), t, tree, 0))
  {
    LoopIsValid(c, env);
    var l := LoopOf(c, env);
    LoopLeavesTested(c, env);
    TreeOfTheLastStays(l, env.afterTests, t, tree, 0);
  }

  lemma {:induction false} RunKeepsId(l: Loop, t: Ticket, tree: Tree, n: nat)
    requires ValidLoop(l) && Runnable(t)
    ensures Run(l, t, tree, n).ticket.id == t.id
    decreases |l.later(t.execution.assignedModel)|, RetriesLeft(t)
  {
    if !l.cancelled(n) {
      var trial := l.attempt(t, tree, n);
      if GoesOn(l, trial) {
        RunKeepsId(l, l.fail(trial.ticket), l.baseline, n + 1);
      }
    }
  }
}
