/** A run of the execution loop moves its ticket by lifecycle steps only. */
module ExecutionLifecycle {
  import opened Basics
  import opened Tickets
  import opened StateMachine
  import opened ModelPolicy
  import opened TargetContext
  import opened ExecutionAttempt
  import opened ExecutionRun
  import opened ExecutionLoop
  import L = Lifecycle

  /** Some steps, no approval among them interrupted, lead from one version of a ticket to the other. */
  ghost predicate Reaches(t: Ticket, u: Ticket) {
    exists steps :: L.Uninterrupted(steps) && L.Final(t, steps) == u
  }

  lemma StaysReached(t: Ticket)
    ensures Reaches(t, t)
  {
    assert L.Uninterrupted([]) && L.Final(t, []) == t;
  }

  lemma OneStepReaches(t: Ticket, step: L.Step, u: Ticket)
    requires step != L.ApproveInterrupted && L.Next(t, step) == u
    ensures Reaches(t, u)
  {
    assert [step][1..] == [];
    assert L.Uninterrupted([step]) && L.Final(t, [step]) == u;
  }

  lemma {:induction false} FinalAppend(t: Ticket, steps: seq<L.Step>, later: seq<L.Step>)
    ensures L.Final(t, steps + later) == L.Final(L.Final(t, steps), later)
    decreases |steps|
  {
    if steps == [] {
      assert [] + later == later;
    } else {
      assert (steps + later)[1..] == steps[1..] + later;
      FinalAppend(L.Next(t, steps[0]), steps[1..], later);
    }
  }

  lemma ReachesTwice(t: Ticket, u: Ticket, v: Ticket)
    requires Reaches(t, u) && Reaches(u, v)
    ensures Reaches(t, v)
  {
    var steps :| L.Uninterrupted(steps) && L.Final(t, steps) == u;
    var later :| L.Uninterrupted(later) && L.Final(u, later) == v;
    FinalAppend(t, steps, later);
    assert L.Uninterrupted(steps + later) && L.Final(t, steps + later) == v;
  }

  /** A save that changes the context only. */
  lemma ContextIsSaved(t: Ticket, files: seq<ContextFile>)
    requires !t.metadata.abandoned
    ensures Reaches(t, t.(contextFiles := files))
  {
    OneStepReaches(t, L.Edit(t.(contextFiles := files)), t.(contextFiles := files));
  }

  lemma MoveReaches(t: Ticket, target: TicketStatus)
    requires !t.metadata.abandoned && CanTransition(t.status, target)
    ensures Reaches(t, t.(status := target))
  {
    OneStepReaches(t, L.Move(target), t.(status := target));
  }

  lemma AttemptReaches(c: Config, env: Environment, t: Ticket, tree: Tree, n: nat)
    requires Runnable(t)
    ensures Reaches(t, TryOnce(c, env, t, tree, n).ticket)
  {
    var saved := t.(contextFiles := Generating(c, env, t, StartTree(c, t, tree), n).desk.saved);
    ContextIsSaved(t, saved.contextFiles);
    MoveReaches(saved, Testing);
    ReachesTwice(t, saved, saved.(status := Testing));
  }

  lemma FailureReaches(later: string -> seq<string>, t: Ticket)
    requires t.status == Testing && !t.metadata.abandoned
    ensures Reaches(t, AfterFailure(later, t))
  {
    match FallbackAfterBudgetExhausted(later, t)
    case Some(model) => OneStepReaches(t, L.FallBack(model), AfterFailure(later, t));
    case None => OneStepReaches(t, L.FailTest, AfterFailure(later, t));
  }

  /** Every run is made of attempts that reach what they save, and failures that reach what they save. */
  ghost predicate LoopReaches(l: Loop) {
    && (forall t: Ticket, tree, n {:trigger l.attempt(t, tree, n)} :: Runnable(t) ==>
      Reaches(t, l.attempt(t, tree, n).ticket))
    && (forall t: Ticket {:trigger l.fail(t)} :: t.status == Testing && !t.metadata.abandoned ==> Reaches(t, l.fail(t)))
  }

  lemma LoopOfReaches(c: Config, env: Environment)
    ensures LoopReaches(LoopOf(c, env))
  {
    var l := LoopOf(c, env);
    forall t: Ticket, tree, n | Runnable(t) ensures Reaches(t, l.attempt(t, tree, n).ticket) {
      AttemptReaches(c, env, t, tree, n);
    }
    forall t: Ticket | t.status == Testing && !t.metadata.abandoned ensures Reaches(t, l.fail(t)) {
      FailureReaches(l.later, t);
    }
  }

  lemma ConclusionReaches(l: Loop, t: Ticket, trial: Trial)
    requires LoopReaches(l) && Runnable(t) && TrialOf(t, trial) && Reaches(t, trial.ticket)
    ensures Reaches(t, Concluded(l, trial).ticket)
  {
    if trial.ending == DiffReady {
      MoveReaches(trial.ticket, DiffPending);
      ReachesTwice(t, trial.ticket, trial.ticket.(status := DiffPending));
    } else if trial.ending == Failed {
      ReachesTwice(t, trial.ticket, l.fail(trial.ticket));
    }
  }

  lemma {:induction false} RunReaches(l: Loop, t: Ticket, tree: Tree, n: nat)
    requires ValidLoop(l) && LoopReaches(l) && Runnable(t)
    ensures Reaches(t, Run(l, t, tree, n).ticket)
    decreases |l.later(t.execution.assignedModel)|, RetriesLeft(t)
  {
    if l.cancelled(n) {
      StaysReached(t);
    } else {
      var trial := l.attempt(t, tree, n);
      if GoesOn(l, trial) {
        var next := l.fail(trial.ticket);
        RunReaches(l, next, l.baseline, n + 1);
        ReachesTwice(t, trial.ticket, next);
        ReachesTwice(t, next, Run(l, next, l.baseline, n + 1).ticket);
      } else {
        ConclusionReaches(l, t, trial);
      }
    }
  }

  lemma StartReaches(rows: seq<Ticket>, id: string)
    requires ValidRows(rows) && CanStart(rows, id)
    ensures Reaches(Get(rows, id).value, Started(rows, id))
  {
    var t := Get(rows, id).value;
    var ready := t.(status := Ready);
    StaysReached(t);
    if t.status == Backlog {
      MoveReaches(t, Ready);
    }
    if t.status != InProgress {
      MoveReaches(ready, InProgress);
      ReachesTwice(t, ready, ready.(status := InProgress));
    }
  }

  lemma CancellationReaches(run: Outcome)
    requires !run.ticket.metadata.abandoned
    ensures Reaches(run.ticket, if run.ending == Cancelled then Requeued(run.ticket) else run.ticket)
  {
    StaysReached(run.ticket);
    OneStepReaches(run.ticket, L.CancelRun, Requeued(run.ticket));
  }

  lemma {:induction false} RunKeepsFlag(l: Loop, t: Ticket, tree: Tree, n: nat)
    requires ValidLoop(l) && Runnable(t)
    ensures !Run(l, t, tree, n).ticket.metadata.abandoned
    decreases |l.later(t.execution.assignedModel)|, RetriesLeft(t)
  {
    if !l.cancelled(n) {
      var trial := l.attempt(t, tree, n);
      if GoesOn(l, trial) {
        RunKeepsFlag(l, l.fail(trial.ticket), l.baseline, n + 1);
      }
    }
  }

  lemma WholeRunReaches(l: Loop, t: Ticket, start: Ticket)
    requires ValidLoop(l) && LoopReaches(l) && Runnable(start) && Reaches(t, start)
    ensures var run := Run(l, start, l.baseline, 0);
            Reaches(t, if run.ending == Cancelled then Requeued(run.ticket) else run.ticket)
  {
    var run := Run(l, start, l.baseline, 0);
    RunReaches(l, start, l.baseline, 0);
    RunKeepsFlag(l, start, l.baseline, 0);
    ReachesTwice(t, start, run.ticket);
    CancellationReaches(run);
    ReachesTwice(t, run.ticket, if run.ending == Cancelled then Requeued(run.ticket) else run.ticket);
  }

  /** What a whole run leaves in the ticket's row is reached from what it found there by lifecycle steps. So
      whatever the lifecycle guarantees over all runs of steps holds with the execution loop as one of the writers. */
  lemma RunTicketTakesSteps(c: Config, env: Environment, rows: seq<Ticket>, id: string)
    requires ValidRows(rows) && CanStart(rows, id) && (c.policy.Some? ==> ValidPolicy(c.policy.value))
    ensures ValidLoop(LoopOf(c, env))
    ensures var run := Run(LoopOf(c, env), Started(rows, id), c.baseline, 0);
            Reaches(Get(rows, id).value, if run.ending == Cancelled then Requeued(run.ticket) else run.ticket)
  {
    LoopIsValid(c, env);
    LoopOfReaches(c, env);
    StartReaches(rows, id);
    WholeRunReaches(LoopOf(c, env), Get(rows, id).value, Started(rows, id));
  }
}
