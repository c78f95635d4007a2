/** Attempts in sequence: retries within the budget, then the next model, until the run ends. */
module ExecutionRun {
  import opened Basics
  import opened Tickets
  import opened StateMachine
  import opened ModelPolicy
  import opened TargetContext
  import opened ExecutionAttempt

  /** Without a settings repository there is no fallback. */
  function FallbackModels(policy: Option<Policy>, model: string): seq<string> {
    if policy.None? then [] else RemainingModels(policy.value, model)
  }

  // ---------- After a failure ----------

  function FallbackAfterBudgetExhausted(later: string -> seq<string>, t: Ticket): Option<string> {
    if t.execution.attempts + 1 <= t.execution.retryBudget then None
    else
      var models := later(t.execution.assignedModel);
      if models == [] then None else Some(models[0])
  }

  /** The next model with a fresh budget, or else a recorded test failure. */
  function AfterFailure(later: string -> seq<string>, t: Ticket): Ticket {
    match FallbackAfterBudgetExhausted(later, t)
    case Some(model) =>
      t.(status := InProgress, execution := t.execution.(assignedModel := model, attempts := 0))
    case None => if t.status == Testing then TestFailure(t).ticket else t
  }

  // ---------- The run ----------

  /** What a run is made of: how an attempt goes, what a failure does to the ticket, when the user has
      cancelled, the models after each model, and the files at HEAD. */
  datatype Loop = Loop(
    attempt: (Ticket, Tree, nat) -> Trial,
    fail: Ticket -> Ticket,
    cancelled: nat -> bool,
    later: string -> seq<string>,
    baseline: Tree)

  function LoopOf(c: Config, env: Environment): Loop {
    var later := (model: string) => FallbackModels(c.policy, model);
    Loop((t, tree, n: nat) => TryOnce(c, env, t, tree, n),
         t => AfterFailure(later, t),
         env.cancelledAtStart,
         later,
         c.baseline)
  }

  function RetriesLeft(t: Ticket): nat {
    if t.execution.attempts <= t.execution.retryBudget then t.execution.retryBudget - t.execution.attempts else 0
  }

  /** The ticket is blocked, or there are fewer models to come, or the same ones and fewer retries. */
  predicate Progresses(l: Loop, t: Ticket, next: Ticket) {
    && next.id == t.id && next.metadata == t.metadata && next.status in {InProgress, Blocked}
    && (next.status == InProgress ==>
          var models := l.later(t.execution.assignedModel);
          var later := l.later(next.execution.assignedModel);
          |later| < |models| || (later == models && RetriesLeft(next) < RetriesLeft(t)))
  }

  ghost predicate ValidLoop(l: Loop) {
    && (forall t: Ticket, tree, n {:trigger l.attempt(t, tree, n)} ::
          t.status == InProgress ==> TrialOf(t, l.attempt(t, tree, n)))
    && (forall t: Ticket {:trigger l.fail(t)} ::
          t.status == Testing && !t.metadata.abandoned ==> Progresses(l, t, l.fail(t)))
  }

  /** How a run ends: the ticket as saved, the worktree, and the attempts made. */
  datatype Outcome = Outcome(ending: Ending, ticket: Ticket, tree: Tree, attempts: seq<Attempt>)

  predicate Runnable(t: Ticket) {
    t.status == InProgress && !t.metadata.abandoned
  }

  /** The run goes on after this attempt. */
  predicate GoesOn(l: Loop, trial: Trial) {
    trial.ending == Failed && l.fail(trial.ticket).status != Blocked
  }

  /** The end of a run with this attempt as its last one. */
  function Concluded(l: Loop, trial: Trial): Outcome {
    var ticket :=
      match trial.ending
      case DiffReady => trial.ticket.(status := DiffPending)
      case Failed => l.fail(trial.ticket)
      case _ => trial.ticket;
    Outcome(trial.ending, ticket, trial.tree, [trial.attempt])
  }

  function Prepend(attempts: seq<Attempt>, later: Outcome): Outcome {
    later.(attempts := attempts + later.attempts)
  }

  /** The attempts from number n on. */
  function Run(l: Loop, t: Ticket, tree: Tree, n: nat): Outcome
    requires ValidLoop(l) && Runnable(t)
    decreases |l.later(t.execution.assignedModel)|, RetriesLeft(t)
  {
    if l.cancelled(n) then Outcome(Cancelled, t, tree, [])
    else
      var trial := l.attempt(t, tree, n);
      if GoesOn(l, trial) then Prepend([trial.attempt], Run(l, l.fail(trial.ticket), l.baseline, n + 1))
      else Concluded(l, trial)
  }

  // ---------- The repository's loop ----------

  /** Falling back takes the first of the later models and leaves the rest; none of them comes up twice. */
  predicate FallsBack(later: string -> seq<string>, model: string) {
    var models := later(model);
    && NoDuplicates(models) && model !in models
    && (models != [] ==> later(models[0]) == models[1..])
  }

  /** A failure falls back or is recorded, as the repository does it. */
  ghost predicate FollowsPolicy(l: Loop) {
    && (forall t: Ticket {:trigger l.fail(t)} :: l.fail(t) == AfterFailure(l.later, t))
    && (forall model :: FallsBack(l.later, model))
  }

  lemma FailureProgresses(l: Loop, t: Ticket)
    requires FallsBack(l.later, t.execution.assignedModel) && t.status == Testing && !t.metadata.abandoned
    ensures Progresses(l, t, AfterFailure(l.later, t))
  {
  }

  lemma LoopFallsBack(c: Config, env: Environment, model: string)
    requires c.policy.Some? ==> ValidPolicy(c.policy.value)
    ensures FallsBack(LoopOf(c, env).later, model)
  {
    if c.policy.Some? {
      RemainingAreNew(c.policy.value, model);
      if RemainingModels(c.policy.value, model) != [] {
        FallbackAdvances(c.policy.value, model);
      }
    }
  }

  lemma LoopIsValid(c: Config, env: Environment)
    requires c.policy.Some? ==> ValidPolicy(c.policy.value)
    ensures ValidLoop(LoopOf(c, env)) && FollowsPolicy(LoopOf(c, env))
  {
    var l := LoopOf(c, env);
    forall t: Ticket, tree, n | t.status == InProgress ensures TrialOf(t, l.attempt(t, tree, n)) {
      TryOnceIsOf(c, env, t, tree, n);
    }
    forall model ensures FallsBack(l.later, model) {
      LoopFallsBack(c, env, model);
    }
    forall t: Ticket | t.status == Testing && !t.metadata.abandoned ensures Progresses(l, t, l.fail(t)) {
      FailureProgresses(l, t);
    }
  }

  // ---------- Induction over a run ----------

  /** An attempt from a good start is as wanted, and the next one starts well again. */
  ghost predicate Keeps(l: Loop, start: (Ticket, Tree) -> bool, wanted: Attempt -> bool, t: Ticket, tree: Tree, n: nat)
  {
    Runnable(t) && start(t, tree) && TrialOf(t, l.attempt(t, tree, n)) ==>
      var trial := l.attempt(t, tree, n);
      wanted(trial.attempt) && (GoesOn(l, trial) ==> start(l.fail(trial.ticket), l.baseline))
  }

  /** If single attempts keep it, all attempts of a run are as wanted. */
  lemma {:induction false} AllAttempts(l: Loop, start: (Ticket, Tree) -> bool, wanted: Attempt -> bool,
                                       t: Ticket, tree: Tree, n: nat)
    requires ValidLoop(l) && Runnable(t) && start(t, tree)
    requires forall u, other, m :: Keeps(l, start, wanted, u, other, m)
    ensures forall i :: 0 <= i < |Run(l, t, tree, n).attempts| ==> wanted(Run(l, t, tree, n).attempts[i])
    decreases |l.later(t.execution.assignedModel)|, RetriesLeft(t)
  {
    if !l.cancelled(n) {
      var trial := l.attempt(t, tree, n);
      assert Keeps(l, start, wanted, t, tree, n);
      if GoesOn(l, trial) {
        AllAttempts(l, start, wanted, l.fail(trial.ticket), l.baseline, n + 1);
      }
    }
  }
}
