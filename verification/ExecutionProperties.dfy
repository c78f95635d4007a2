/** How often a run tries, with which models, from which files, and what the models are shown. */
module ExecutionProperties {
  import opened Basics
  import opened Tickets
  import opened ModelPolicy
  import opened TargetContext
  import opened ExecutionAttempt
  import opened ExecutionRun

  // ---------- The schedule ----------

  /** One model's attempts: from a up to the budget, and at least one. */
  function Stage(model: string, a: nat, budget: nat): seq<(string, nat)>
    decreases budget - a
  {
    [(model, a)] + (if a < budget then Stage(model, a + 1, budget) else [])
  }

  /** All attempts a run can make: the first model from a, every later model from 0. */
  function Schedule(models: seq<string>, a: nat, budget: nat): seq<(string, nat)>
    decreases |models|
  {
    if models == [] then [] else Stage(models[0], a, budget) + Schedule(models[1..], 0, budget)
  }

  function StageLength(a: nat, budget: nat): nat {
    if a <= budget then budget - a + 1 else 1
  }

  lemma {:induction false} StageIsExact(model: string, a: nat, budget: nat)
    ensures |Stage(model, a, budget)| == StageLength(a, budget)
    ensures forall i :: 0 <= i < StageLength(a, budget) ==> Stage(model, a, budget)[i] == (model, a + i)
    decreases budget - a
  {
    if a < budget {
      StageIsExact(model, a + 1, budget);
    }
  }

  /** (budget - a + 1) + k * (budget + 1) attempts for k later models. */
  lemma {:induction false} ScheduleLength(models: seq<string>, a: nat, budget: nat)
    requires models != []
    ensures |Schedule(models, a, budget)| == StageLength(a, budget) + (|models| - 1) * (budget + 1)
    decreases |models|
  {
    StageIsExact(models[0], a, budget);
    if |models| > 1 {
      ScheduleLength(models[1..], 0, budget);
    }
  }

  lemma {:induction false} ScheduleUses(models: seq<string>, a: nat, budget: nat, m: string, x: nat)
    ensures (m, x) in Schedule(models, a, budget) ==>
      m in models && (x <= budget || (x == a && m == models[0]))
    decreases |models|
  {
    if models != [] {
      StageIsExact(models[0], a, budget);
      ScheduleUses(models[1..], 0, budget, m, x);
    }
  }

  /** With different models, no model is tried twice at the same count: each has one unbroken stage. */
  lemma {:induction false} ScheduleHasNoRepeats(models: seq<string>, a: nat, budget: nat)
    requires NoDuplicates(models)
    ensures NoDuplicates(Schedule(models, a, budget))
    decreases |models|
  {
    if models != [] {
      StageIsExact(models[0], a, budget);
      ScheduleHasNoRepeats(models[1..], 0, budget);
      var later := Schedule(models[1..], 0, budget);
      forall j | 0 <= j < |later| ensures later[j].0 != models[0] {
        ScheduleUses(models[1..], 0, budget, later[j].0, later[j].1);
      }
    }
  }

  function Models(l: Loop, t: Ticket): seq<string> {
    [t.execution.assignedModel] + l.later(t.execution.assignedModel)
  }

  function Plan(l: Loop, t: Ticket): seq<(string, nat)> {
    Schedule(Models(l, t), t.execution.attempts, t.execution.retryBudget)
  }

  function StepOf(a: Attempt): (string, nat) {
    (a.model, a.attempts)
  }

  function Steps(attempts: seq<Attempt>): (r: seq<(string, nat)>)
    ensures |r| == |attempts|
  {
    seq(|attempts|, i requires 0 <= i < |attempts| => StepOf(attempts[i]))
  }

  lemma StageStep(models: seq<string>, a: nat, budget: nat)
    requires models != []
    ensures Schedule(models, a, budget) ==
      [(models[0], a)] + (if a < budget then Schedule(models, a + 1, budget) else Schedule(models[1..], 0, budget))
  {
    var later := Schedule(models[1..], 0, budget);
    if a < budget {
      var stage := Stage(models[0], a + 1, budget);
      assert ([(models[0], a)] + stage) + later == [(models[0], a)] + (stage + later);
    }
  }

  /** What a failed attempt leaves to do is the plan without its first entry. */
  lemma FailureAdvancesThePlan(l: Loop, t: Ticket)
    requires FallsBack(l.later, t.execution.assignedModel) && t.status == Testing && !t.metadata.abandoned
    ensures var next := AfterFailure(l.later, t);
            && next.execution.retryBudget == t.execution.retryBudget
            && Plan(l, t) == [(t.execution.assignedModel, t.execution.attempts)]
                             + (if next.status == Blocked then [] else Plan(l, next))
            && (next.status == Blocked ==> next.execution == t.execution.(attempts := t.execution.attempts + 1))
  {
    var models := Models(l, t);
    StageStep(models, t.execution.attempts, t.execution.retryBudget);
    assert models[1..] == l.later(t.execution.assignedModel);
    if FallbackAfterBudgetExhausted(l.later, t).Some? {
      assert models[1..] == Models(l, AfterFailure(l.later, t));
    }
  }

  /** How a run can end, given the plan it started with. */
  predicate EndsAsPlanned(r: Outcome, plan: seq<(string, nat)>) {
    && Steps(r.attempts) <= plan
    && match r.ending
       case DiffReady =>
         && r.attempts != [] && r.ticket.status == DiffPending
         && Steps(r.attempts)[|r.attempts| - 1] == (r.ticket.execution.assignedModel, r.ticket.execution.attempts)
       case Failed =>
         && Steps(r.attempts) == plan && plan != [] && r.ticket.status == Blocked
         && plan[|plan| - 1] == (r.ticket.execution.assignedModel, r.ticket.execution.attempts - 1)
       case _ => r.ticket.status in {InProgress, Testing}
  }

  lemma PrependEnds(first: Attempt, later: Outcome, plan: seq<(string, nat)>)
    requires EndsAsPlanned(later, plan)
    ensures EndsAsPlanned(Prepend([first], later), [StepOf(first)] + plan)
  {
    assert Steps([first] + later.attempts) == [StepOf(first)] + Steps(later.attempts);
  }

  lemma PlanOfTrial(l: Loop, t: Ticket, trial: Trial)
    requires TrialOf(t, trial)
    ensures Plan(l, t) == Plan(l, trial.ticket) && [StepOf(trial.attempt)] <= Plan(l, t)
  {
    StageStep(Models(l, t), t.execution.attempts, t.execution.retryBudget);
  }

  lemma ConcludesAsPlanned(l: Loop, t: Ticket, trial: Trial)
    requires ValidLoop(l) && FollowsPolicy(l) && Runnable(t) && TrialOf(t, trial) && !GoesOn(l, trial)
    ensures EndsAsPlanned(Concluded(l, trial), Plan(l, t))
  {
    PlanOfTrial(l, t, trial);
    if trial.ending == Failed {
      assert FallsBack(l.later, trial.ticket.execution.assignedModel);
      FailureAdvancesThePlan(l, trial.ticket);
    }
    assert Steps([trial.attempt]) == [StepOf(trial.attempt)];
  }

  /** Each attempt of a run is the next entry of its plan; a run that ends blocked has used all of it. */
  lemma {:induction false} RunFollowsThePlan(l: Loop, t: Ticket, tree: Tree, n: nat)
    requires ValidLoop(l) && FollowsPolicy(l) && Runnable(t)
    ensures EndsAsPlanned(Run(l, t, tree, n), Plan(l, t))
    decreases |l.later(t.execution.assignedModel)|, RetriesLeft(t)
  {
    if !l.cancelled(n) {
      var trial := l.attempt(t, tree, n);
      if GoesOn(l, trial) {
        var next := l.fail(trial.ticket);
        RunFollowsThePlan(l, next, l.baseline, n + 1);
        PrependEnds(trial.attempt, Run(l, next, l.baseline, n + 1), Plan(l, next));
        PlanOfTrial(l, t, trial);
        assert FallsBack(l.later, trial.ticket.execution.assignedModel);
        FailureAdvancesThePlan(l, trial.ticket);
      } else {
        ConcludesAsPlanned(l, t, trial);
      }
    }
  }

  // ---------- The bound ----------

  lemma {:induction false} PlanEnd(models: seq<string>, a: nat, budget: nat)
    requires models != [] && a <= budget
    ensures var plan := Schedule(models, a, budget);
            plan != [] && plan[|plan| - 1] == (models[|models| - 1], budget)
    decreases |models|
  {
    StageIsExact(models[0], a, budget);
    if |models| > 1 {
      PlanEnd(models[1..], 0, budget);
    }
  }

  predicate Bounded(r: Outcome, models: seq<string>, a: nat, budget: nat)
    requires models != [] && a <= budget
  {
    var bound := (budget - a + 1) + (|models| - 1) * (budget + 1);
    && |r.attempts| <= bound
    && NoDuplicates(Steps(r.attempts))
    && (r.ending == DiffReady ==> r.ticket.status == DiffPending && r.ticket.execution.attempts <= budget)
    && (r.ending == Failed ==>
          && |r.attempts| == bound
          && r.ticket.status == Blocked && r.ticket.execution.attempts == budget + 1
          && r.ticket.execution.assignedModel == models[|models| - 1])
  }

  lemma PrefixHasNoDuplicates(steps: seq<(string, nat)>, plan: seq<(string, nat)>)
    requires steps <= plan && NoDuplicates(plan)
    ensures NoDuplicates(steps)
    ensures forall x :: x in steps ==> x in plan
  {
    assert forall i :: 0 <= i < |steps| ==> steps[i] == plan[i];
  }

  lemma PlannedIsBounded(r: Outcome, models: seq<string>, a: nat, budget: nat)
    requires models != [] && a <= budget && NoDuplicates(models)
    requires EndsAsPlanned(r, Schedule(models, a, budget))
    ensures Bounded(r, models, a, budget)
  {
    var steps := Steps(r.attempts);
    ScheduleLength(models, a, budget);
    ScheduleHasNoRepeats(models, a, budget);
    PrefixHasNoDuplicates(steps, Schedule(models, a, budget));
    PlanEnd(models, a, budget);
    if r.ending == DiffReady {
      assert steps[|steps| - 1] in Schedule(models, a, budget);
      ScheduleUses(models, a, budget, steps[|steps| - 1].0, steps[|steps| - 1].1);
    }
  }

  /** With k models after the ticket's own, a run makes at most (budget - attempts + 1) + k * (budget + 1)
      attempts, and never the same one twice. It passes with the count within the budget; it blocks only after
      all of these attempts, on the last model, with the count one above the budget. */
  lemma AttemptsAreBounded(c: Config, env: Environment, t: Ticket, tree: Tree)
    requires c.policy.Some? ==> ValidPolicy(c.policy.value)
    requires Runnable(t) && t.execution.attempts <= t.execution.retryBudget
    ensures ValidLoop(LoopOf(c, env))
    ensures var l := LoopOf(c, env);
            Bounded(Run(l, t, tree, 0), Models(l, t), t.execution.attempts, t.execution.retryBudget)
  {
    LoopIsValid(c, env);
    LoopIsBounded(LoopOf(c, env), t, tree);
  }

  lemma LoopIsBounded(l: Loop, t: Ticket, tree: Tree)
    requires ValidLoop(l) && FollowsPolicy(l) && Runnable(t) && t.execution.attempts <= t.execution.retryBudget
    ensures Bounded(Run(l, t, tree, 0), Models(l, t), t.execution.attempts, t.execution.retryBudget)
  {
    RunFollowsThePlan(l, t, tree, 0);
    assert FallsBack(l.later, t.execution.assignedModel);
    PlannedIsBounded(Run(l, t, tree, 0), Models(l, t), t.execution.attempts, t.execution.retryBudget);
  }

  /** The bound is reached: a run that is never cancelled and whose attempts all fail ends blocked. */
  lemma {:induction false} FailingRunBlocks(l: Loop, t: Ticket, tree: Tree, n: nat)
    requires ValidLoop(l) && Runnable(t)
    requires forall m: nat :: !l.cancelled(m)
    requires forall u: Ticket, other: Tree, m: nat {:trigger l.attempt(u, other, m)} ::
        l.attempt(u, other, m).ending == Failed
    ensures Run(l, t, tree, n).ending == Failed
    decreases |l.later(t.execution.assignedModel)|, RetriesLeft(t)
  {
    var trial := l.attempt(t, tree, n);
    if GoesOn(l, trial) {
      FailingRunBlocks(l, l.fail(trial.ticket), l.baseline, n + 1);
    }
  }

  // ---------- Isolation ----------

  predicate CleanStart(baseline: Tree, t: Ticket, tree: Tree) {
    t.execution.attempts == 0 ==> tree == baseline
  }

  predicate StartsFrom(baseline: Tree, a: Attempt) {
    a.start == baseline
  }

  /** From a fresh worktree, every attempt starts from the files at HEAD: nothing that an earlier attempt
      or its tests wrote is left, whether the attempt is a retry or the first one of a fallback model. */
  lemma EveryAttemptStartsClean(c: Config, env: Environment, t: Ticket, tree: Tree, i: nat)
    requires (c.policy.Some? ==> ValidPolicy(c.policy.value)) && Runnable(t) && CleanStart(c.baseline, t, tree)
    ensures ValidLoop(LoopOf(c, env))
    ensures var r := Run(LoopOf(c, env), t, tree, 0);
            i < |r.attempts| ==> r.attempts[i].start == c.baseline
  {
    LoopIsValid(c, env);
    var l := LoopOf(c, env);
    var start := (u: Ticket, other: Tree) => CleanStart(c.baseline, u, other);
    var wanted := (a: Attempt) => StartsFrom(c.baseline, a);
    AllAttempts(l, start, wanted, t, tree, 0);
    assert i < |Run(l, t, tree, 0).attempts| ==> wanted(Run(l, t, tree, 0).attempts[i]);
  }

  // ---------- What the models are shown ----------

  predicate CoherentDesks(paths: Paths, desks: seq<Desk>, targets: seq<string>) {
    forall j :: 0 <= j < |desks| ==> AllCoherent(paths, desks[j].files, desks[j].tree, targets)
  }

  predicate UniqueDesk(paths: Paths, d: Desk, targets: seq<string>) {
    TargetsAreUnique(paths, d.files, targets) && TargetsAreUnique(paths, d.saved, targets)
  }

  lemma DispatchKeepsCoherent(c: Config, env: Environment, targets: seq<string>, n: nat, k: nat, d: Desk)
    requires ValidConfig(c) && k < |targets|
    requires AllCoherent(c.paths, d.files, d.tree, targets) && UniqueDesk(c.paths, d, targets)
    ensures var g := Dispatch(c, env, targets[k], n, k, d);
            && g.dispatches == [d]
            && UniqueDesk(c.paths, g.desk, targets)
            && AllCoherent(c.paths, g.desk.files, g.desk.tree, targets)
  {
    if env.output(n, k).Some? {
      var content := TargetFileContent(c.paths, d.files, targets[k]);
      var written := c.write(d.tree, targets[k], content, env.output(n, k).value);
      if written.Wrote? {
        WriteKeepsCoherent(c.paths, d.files, d.tree, targets, k, written.text);
      }
    }
  }

  lemma DesksPrepend(paths: Paths, first: Desk, later: seq<Desk>, targets: seq<string>)
    requires AllCoherent(paths, first.files, first.tree, targets) && CoherentDesks(paths, later, targets)
    ensures CoherentDesks(paths, [first] + later, targets)
  {
  }

  lemma {:induction false} GenerationIsCoherent(c: Config, env: Environment, targets: seq<string>, n: nat, k: nat,
                                                d: Desk)
    requires ValidConfig(c) && k <= |targets|
    requires AllCoherent(c.paths, d.files, d.tree, targets) && UniqueDesk(c.paths, d, targets)
    ensures var g := Generate(c, env, targets, n, k, d);
            CoherentDesks(c.paths, g.dispatches, targets) && UniqueDesk(c.paths, g.desk, targets)
    decreases |targets| - k
  {
    if k < |targets| && !env.cancelledBefore(n, k) {
      DispatchKeepsCoherent(c, env, targets, n, k, d);
      var first := Dispatch(c, env, targets[k], n, k, d);
      if first.end == AllWritten {
        GenerationIsCoherent(c, env, targets, n, k + 1, first.desk);
        DesksPrepend(c.paths, d, Generate(c, env, targets, n, k + 1, first.desk).dispatches, targets);
      }
    }
  }

  lemma GeneratingIsCoherent(c: Config, env: Environment, t: Ticket, tree: Tree, n: nat)
    requires ValidConfig(c) && TargetsAreUnique(c.paths, t.contextFiles, t.targetFiles)
    ensures var g := Generating(c, env, t, tree, n);
            CoherentDesks(c.paths, g.dispatches, t.targetFiles)
              && TargetsAreUnique(c.paths, g.desk.saved, t.targetFiles)
  {
    RefreshIsCoherent(c.paths, t.contextFiles, tree, t.targetFiles);
    var files := Refresh(c.paths, t.contextFiles, tree, t.targetFiles);
    GenerationIsCoherent(c, env, t.targetFiles, n, 0, Desk(files, tree, t.contextFiles));
  }

  lemma TryOnceIsCoherent(c: Config, env: Environment, t: Ticket, tree: Tree, n: nat)
    requires ValidConfig(c) && TargetsAreUnique(c.paths, t.contextFiles, t.targetFiles)
    ensures var trial := TryOnce(c, env, t, tree, n);
            && CoherentDesks(c.paths, trial.attempt.dispatches, t.targetFiles)
            && TargetsAreUnique(c.paths, trial.ticket.contextFiles, t.targetFiles)
  {
    GeneratingIsCoherent(c, env, t, StartTree(c, t, tree), n);
  }

  predicate UniqueStart(c: Config, targets: seq<string>, t: Ticket) {
    t.targetFiles == targets && TargetsAreUnique(c.paths, t.contextFiles, targets)
  }

  lemma FailureKeepsFiles(l: Loop, t: Ticket)
    requires t.status == Testing
    ensures var next := AfterFailure(l.later, t);
            next.targetFiles == t.targetFiles && next.contextFiles == t.contextFiles
  {
  }

  /** At every dispatch of every attempt, each target that exists in the worktree is shown as it is there,
      provided the ticket's context has at most one snapshot of it. */
  lemma EveryDispatchIsCoherent(c: Config, env: Environment, t: Ticket, tree: Tree, i: nat)
    requires ValidConfig(c) && (c.policy.Some? ==> ValidPolicy(c.policy.value)) && Runnable(t)
    requires TargetsAreUnique(c.paths, t.contextFiles, t.targetFiles)
    ensures ValidLoop(LoopOf(c, env))
    ensures var r := Run(LoopOf(c, env), t, tree, 0);
            i < |r.attempts| ==> CoherentDesks(c.paths, r.attempts[i].dispatches, t.targetFiles)
  {
    LoopIsValid(c, env);
    var l := LoopOf(c, env);
    var start := (u: Ticket, other: Tree) => UniqueStart(c, t.targetFiles, u);
    var wanted := (a: Attempt) => CoherentDesks(c.paths, a.dispatches, t.targetFiles);
    forall u, other, m: nat ensures Keeps(l, start, wanted, u, other, m) {
      if UniqueStart(c, t.targetFiles, u) {
        TryOnceIsCoherent(c, env, u, other, m);
        var trial := TryOnce(c, env, u, other, m);
        if TrialOf(u, trial) && trial.ending == Failed {
          FailureKeepsFiles(l, trial.ticket);
        }
      }
    }
    AllAttempts(l, start, wanted, t, tree, 0);
    assert i < |Run(l, t, tree, 0).attempts| ==> wanted(Run(l, t, tree, 0).attempts[i]);
  }

  lemma RunBeginsWith(l: Loop, t: Ticket, tree: Tree, n: nat)
    requires ValidLoop(l) && Runnable(t) && !l.cancelled(n)
    ensures Run(l, t, tree, n).attempts != [] && Run(l, t, tree, n).attempts[0] == l.attempt(t, tree, n).attempt
  {
  }

  lemma SomethingIsDispatched(c: Config, env: Environment, targets: seq<string>, n: nat, d: Desk)
    requires targets != [] && !env.cancelledBefore(n, 0)
    ensures var g := Generate(c, env, targets, n, 0, d);
            g.dispatches != [] && g.dispatches[0] == d
  {
  }

  /** All dispatches of the run show the targets as they are in the worktree. */
  ghost predicate AlwaysCoherent(c: Config, env: Environment, t: Ticket)
    requires Runnable(t) && (c.policy.Some? ==> ValidPolicy(c.policy.value))
  {
    LoopIsValid(c, env);
    var attempts := Run(LoopOf(c, env), t, c.baseline, 0).attempts;
    forall i :: 0 <= i < |attempts| ==> CoherentDesks(c.paths, attempts[i].dispatches, t.targetFiles)
  }

  /** Nobody cancels, and no model answers. */
  function Silent(): Environment {
    Environment(_ => false, (_, _) => false, _ => false, (_, _) => None, (_, _) => false, _ => false, _ => map[])
  }

  lemma FirstDispatchShowsTheRefresh(c: Config, t: Ticket)
    requires Runnable(t) && t.targetFiles != [] && ValidLoop(LoopOf(c, Silent()))
    ensures var attempts := Run(LoopOf(c, Silent()), t, c.baseline, 0).attempts;
            && attempts != [] && attempts[0].dispatches != []
            && attempts[0].dispatches[0].tree == c.baseline
            && attempts[0].dispatches[0].files == Refresh(c.paths, t.contextFiles, c.baseline, t.targetFiles)
  {
    RunBeginsWith(LoopOf(c, Silent()), t, c.baseline, 0);
    var files := Refresh(c.paths, t.contextFiles, c.baseline, t.targetFiles);
    SomethingIsDispatched(c, Silent(), t.targetFiles, 0, Desk(files, c.baseline, t.contextFiles));
  }

  /** A ticket with two snapshots of one target shows a stale one in some run. */
  lemma DuplicateIsShownStale(c: Config, t: Ticket, k: nat) returns (baseline: Tree)
    requires ValidConfig(c) && (c.policy.Some? ==> ValidPolicy(c.policy.value)) && Runnable(t) && k < |t.targetFiles|
    requires c.paths.inside(c.paths.norm(t.targetFiles[k]))
    requires !AtMostOneSnapshot(c.paths, t.contextFiles, c.paths.norm(t.targetFiles[k]))
    ensures !AlwaysCoherent(c.(baseline := baseline), Silent(), t)
  {
    baseline := StaleAfterRefresh(c.paths, t.contextFiles, t.targetFiles, k);
    var other := c.(baseline := baseline);
    LoopIsValid(other, Silent());
    FirstDispatchShowsTheRefresh(other, t);
    var first := Run(LoopOf(other, Silent()), t, baseline, 0).attempts[0];
    assert !Coherent(c.paths, first.dispatches[0].files, baseline, t.targetFiles[k]);
    assert !AllCoherent(c.paths, first.dispatches[0].files, first.dispatches[0].tree, t.targetFiles);
  }

  /** Whatever the repository holds and whatever happens, all dispatches of all attempts show the targets as
      they are in the worktree: this is so exactly for a ticket whose context has at most one snapshot of each
      of its targets. */
  lemma EveryDispatchIsCoherentIff(c: Config, t: Ticket)
    requires ValidConfig(c) && (c.policy.Some? ==> ValidPolicy(c.policy.value)) && Runnable(t)
    ensures (forall baseline: Tree, env :: AlwaysCoherent(c.(baseline := baseline), env, t))
      <==> TargetsAreUnique(c.paths, t.contextFiles, t.targetFiles)
  {
    if TargetsAreUnique(c.paths, t.contextFiles, t.targetFiles) {
      forall baseline: Tree, env ensures AlwaysCoherent(c.(baseline := baseline), env, t) {
        UniqueTargetsAreCoherent(c.(baseline := baseline), env, t);
      }
    } else {
      var k :| 0 <= k < |t.targetFiles| && c.paths.inside(c.paths.norm(t.targetFiles[k]))
               && !AtMostOneSnapshot(c.paths, t.contextFiles, c.paths.norm(t.targetFiles[k]));
      var baseline := DuplicateIsShownStale(c, t, k);
    }
  }

  lemma UniqueTargetsAreCoherent(c: Config, env: Environment, t: Ticket)
    requires ValidConfig(c) && (c.policy.Some? ==> ValidPolicy(c.policy.value)) && Runnable(t)
    requires TargetsAreUnique(c.paths, t.contextFiles, t.targetFiles)
    ensures AlwaysCoherent(c, env, t)
  {
    LoopIsValid(c, env);
    var attempts := Run(LoopOf(c, env), t, c.baseline, 0).attempts;
    forall i | 0 <= i < |attempts| ensures CoherentDesks(c.paths, attempts[i].dispatches, t.targetFiles) {
      EveryDispatchIsCoherent(c, env, t, c.baseline, i);
    }
  }
}
