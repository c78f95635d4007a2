/** The execution loop itself: it changes the stored ticket and the worktree step by step. */
module ExecutionLoop {
  import opened Basics
  import opened Tickets
  import opened TicketStore
  import opened StateMachine
  import opened TargetContext
  import opened ModelPolicy
  import opened ExecutionAttempt
  import opened ExecutionRun
  import opened ExecutionProperties
  import opened AttemptEndings

  /** The rows are the original ones with this version of the ticket. */
  ghost predicate Stores(original: seq<Ticket>, rows: seq<Ticket>, t: Ticket) {
    rows == Put(original, t) && Get(original, t.id).Some? && !t.metadata.abandoned
  }

  lemma StoreAgain(original: seq<Ticket>, rows: seq<Ticket>, before: Ticket, t: Ticket)
    requires Stores(original, rows, before) && t.id == before.id && !t.metadata.abandoned
    ensures Stores(original, Put(rows, t), t)
    ensures Get(rows, t.id) == Some(before)
  {
    GetAfterPut(original, before, t.id);
    PutTwice(original, before, t);
  }

  // ---------- The loop of the specification and the loop that runs ----------

  predicate AttemptMade(t: Ticket, tree: Tree, n: nat) { true }

  predicate TicketFailed(t: Ticket) { true }

  /** The run is specified by attempts, failures and cancellations that are those of c and env. The two
      predicates above only say at which arguments this is used. */
  ghost predicate Performs(l: Loop, c: Config, env: Environment) {
    && (forall t: Ticket, tree: Tree, n: nat {:trigger AttemptMade(t, tree, n)} ::
          l.attempt(t, tree, n) == TryOnce(c, env, t, tree, n))
    && (forall t: Ticket {:trigger TicketFailed(t)} ::
          l.fail(t) == AfterFailure(model => FallbackModels(c.policy, model), t))
    && (forall n: nat :: l.cancelled(n) == env.cancelledAtStart(n))
    && l.baseline == c.baseline
  }

  lemma LoopOfPerforms(c: Config, env: Environment)
    ensures Performs(LoopOf(c, env), c, env)
  {
  }

  class ExecutionLoop {
    const repository: TicketRepository
    const stateService: TicketStateService
    var worktree: Tree
    /** The attempts made so far. */
    var attempts: seq<Attempt>

    constructor (repository: TicketRepository, stateService: TicketStateService, worktree: Tree)
      ensures this.repository == repository && this.stateService == stateService
      ensures this.worktree == worktree && attempts == []
    {
      this.repository := repository;
      this.stateService := stateService;
      this.worktree := worktree;
      attempts := [];
    }

    ghost predicate Valid()
      reads this
    {
      stateService.repository == repository
    }

    method Persist(ghost original: seq<Ticket>, ghost before: Ticket, t: Ticket)
      requires Stores(original, repository.rows, before) && t.id == before.id && !t.metadata.abandoned
      modifies repository
      ensures Stores(original, repository.rows, t)
    {
      StoreAgain(original, repository.rows, before, t);
      var _ := repository.Save(t);
    }

    method MoveTo(ghost original: seq<Ticket>, ghost t: Ticket, id: string, target: TicketStatus)
      returns (moved: Ticket)
      requires Valid() && Stores(original, repository.rows, t) && t.id == id && CanTransition(t.status, target)
      modifies repository
      ensures moved == t.(status := target) && Stores(original, repository.rows, moved)
    {
      StoreAgain(original, repository.rows, t, t.(status := target));
      var result := stateService.Move(id, target);
      return result.ticket;
    }

    method ResetWorktree(baseline: Tree)
      modifies `worktree
      ensures worktree == baseline
    {
      worktree := baseline;
    }

    /** Asks the model for one file and writes it. Saves the ticket when usage is reported. */
    method DispatchFile(ghost original: seq<Ticket>, c: Config, env: Environment, target: string, n: nat, k: nat,
                        start: Ticket, d: Desk)
      returns (end: GenerationEnd, after: Desk)
      requires ValidConfig(c) && d.tree == worktree
      requires Stores(original, repository.rows, start.(contextFiles := d.saved))
      modifies `worktree, repository
      ensures end == Dispatch(c, env, target, n, k, d).end && after == Dispatch(c, env, target, n, k, d).desk
      ensures after.tree == worktree && Stores(original, repository.rows, start.(contextFiles := after.saved))
      ensures after.saved == if env.output(n, k).Some? && env.usage(n, k) then d.files else d.saved
    {
      after := d;
      var content := TargetFileContent(c.paths, d.files, target);
      var output := env.output(n, k);
      if output.None? {
        return Broken, after;
      }
      if env.usage(n, k) {
        Persist(original, start.(contextFiles := d.saved), start.(contextFiles := d.files));
        after := after.(saved := d.files);
      }
      var written := c.write(worktree, target, content, output.value);
      match written {
        case Crash =>
          return Broken, after;
        case WriteError =>
          return WriteFailed, after;
        case Wrote(text) =>
          worktree := worktree[c.paths.norm(target) := text];
          var files := RefreshTargetContext(c.paths, d.files, worktree, [target]);
          RefreshOfOne(c.paths, d.files, worktree, target);
          return AllWritten, Desk(files, worktree, after.saved);
      }
    }

    /** Dispatches the target files one after the other. */
    method GenerateFiles(ghost original: seq<Ticket>, c: Config, env: Environment, n: nat, start: Ticket,
                         files: seq<ContextFile>)
      returns (generation: Generation)
      requires ValidConfig(c) && Stores(original, repository.rows, start)
      modifies `worktree, repository
      ensures generation == Generate(c, env, start.targetFiles, n, 0, Desk(files, old(worktree), start.contextFiles))
      ensures worktree == generation.desk.tree
      ensures Stores(original, repository.rows, start.(contextFiles := generation.desk.saved))
    {
      var desk := Desk(files, worktree, start.contextFiles);
      assert start.(contextFiles := desk.saved) == start;
      GenerateAfterNothing(c, env, start.targetFiles, n, desk);
      var dispatches: seq<Desk> := [];
      var k := 0;
      while k < |start.targetFiles|
        invariant 0 <= k <= |start.targetFiles|
        invariant desk.tree == worktree && Stores(original, repository.rows, start.(contextFiles := desk.saved))
        invariant Generate(c, env, start.targetFiles, n, 0, Desk(files, old(worktree), start.contextFiles))
               == GenerateAfter(c, env, start.targetFiles, n, k, desk, dispatches)
      {
        if env.cancelledBefore(n, k) {
          return Generation(Stopped, desk, dispatches);
        }
        dispatches := dispatches + [desk];
        var end;
        end, desk := DispatchFile(original, c, env, start.targetFiles[k], n, k, start, desk);
        if end != AllWritten {
          return Generation(end, desk, dispatches);
        }
        k := k + 1;
      }
      return Generation(AllWritten, desk, dispatches);
    }

    /** One attempt up to its tests: reset before a retry, refresh, generate, test. */
    method RunAttempt(ghost original: seq<Ticket>, ghost l: Loop, c: Config, env: Environment, n: nat, ticket: Ticket)
      returns (trial: Trial)
      requires Valid() && ValidConfig(c) && ValidLoop(l) && Performs(l, c, env)
      requires Runnable(ticket) && Stores(original, repository.rows, ticket)
      modifies `worktree, repository
      ensures trial == l.attempt(ticket, old(worktree), n)
      ensures trial.attempt.start == if ticket.execution.attempts > 0 then c.baseline else old(worktree)
      ensures worktree == trial.tree && Stores(original, repository.rows, trial.ticket)
    {
      assert AttemptMade(ticket, worktree, n);
      if ticket.execution.attempts > 0 {
        ResetWorktree(c.baseline);
      }
      var start := worktree;
      var files := RefreshTargetContext(c.paths, ticket.contextFiles, start, ticket.targetFiles);
      var generation := GenerateFiles(original, c, env, n, ticket, files);
      var made := Attempt(ticket.execution.assignedModel, ticket.execution.attempts, start, generation.dispatches);
      var saved := ticket.(contextFiles := generation.desk.saved);
      if generation.end == Stopped {
        return Trial(Cancelled, saved, worktree, made);
      }
      if generation.end == Broken {
        return Trial(Crashed, saved, worktree, made);
      }
      var testing := MoveTo(original, saved, ticket.id, Testing);
      if env.cancelledAfter(n) {
        return Trial(Cancelled, testing, worktree, made);
      }
      if generation.end == WriteFailed {
        return Trial(Failed, testing, worktree, made);
      }
      worktree := env.afterTests(n);
      return Trial(if env.testsPass(n) then DiffReady else Failed, testing, worktree, made);
    }

    /** Falls back to the next model when the budget is used up and there is one; else records the failure. */
    method HandleFailure(ghost original: seq<Ticket>, ghost l: Loop, c: Config, ghost env: Environment, ticket: Ticket)
      returns (next: Ticket)
      requires Valid() && Performs(l, c, env) && (c.policy.Some? ==> ValidPolicy(c.policy.value))
      requires Stores(original, repository.rows, ticket) && ticket.status == Testing
      modifies repository
      ensures next == l.fail(ticket) && Stores(original, repository.rows, next)
    {
      assert TicketFailed(ticket);
      assert l.fail(ticket) == AfterFailure(model => FallbackModels(c.policy, model), ticket);
      if c.policy.Some? && ticket.execution.attempts + 1 > ticket.execution.retryBudget {
        var model := NextLocalFallbackModel(c.policy.value, ticket.execution.assignedModel);
        if model.Some? {
          next := ticket.(status := InProgress,
                          execution := ticket.execution.(assignedModel := model.value, attempts := 0));
          Persist(original, ticket, next);
          return;
        }
      }
      next := RecordFailure(original, ticket);
    }

    method RecordFailure(ghost original: seq<Ticket>, ticket: Ticket) returns (next: Ticket)
      requires Valid() && Stores(original, repository.rows, ticket) && ticket.status == Testing
      modifies repository
      ensures next == TestFailure(ticket).ticket && Stores(original, repository.rows, next)
    {
      StoreAgain(original, repository.rows, ticket, TestFailure(ticket).ticket);
      var result := stateService.RecordFailure(ticket.id);
      return result.ticket;
    }

    /** Attempts until the diff is ready, the ticket is blocked, or the run is cancelled or crashes. */
    method RunTicketInWorktree(ghost original: seq<Ticket>, ghost l: Loop, c: Config, env: Environment, start: Ticket)
      returns (ending: Ending, ticket: Ticket)
      requires Valid() && ValidConfig(c) && (c.policy.Some? ==> ValidPolicy(c.policy.value))
      requires ValidLoop(l) && Performs(l, c, env) && Runnable(start) && Stores(original, repository.rows, start)
      modifies this, repository
      ensures Outcome(ending, ticket, worktree, attempts) == Run(l, start, old(worktree), 0)
      ensures Stores(original, repository.rows, ticket)
    {
      ticket := start;
      attempts := [];
      RunAfterNothing(l, start, worktree);
      var n := 0;
      while true
        invariant Runnable(ticket) && Stores(original, repository.rows, ticket) && ticket.id == start.id
        invariant Run(l, start, old(worktree), 0) == RunAfter(l, ticket, worktree, n, attempts)
        decreases |l.later(ticket.execution.assignedModel)|, RetriesLeft(ticket)
      {
        if env.cancelledAtStart(n) {
          return Cancelled, ticket;
        }
        var trial := RunAttempt(original, l, c, env, n, ticket);
        attempts := attempts + [trial.attempt];
        if trial.ending == DiffReady {
          ticket := MoveTo(original, trial.ticket, start.id, DiffPending);
          return DiffReady, ticket;
        }
        if trial.ending != Failed {
          return trial.ending, trial.ticket;
        }
        ticket := HandleFailure(original, l, c, env, trial.ticket);
        if ticket.status == Blocked {
          return Failed, ticket;
        }
        ResetWorktree(c.baseline);
        n := n + 1;
      }
    }

    /** Brings a backlog or ready ticket to in progress; any other status but that one is refused. */
    method PrepareTicket(id: string) returns (prepared: Option<Ticket>)
      requires Valid() && ValidRows(repository.rows)
      modifies repository
      ensures prepared.Some? <==> CanStart(old(repository.rows), id)
      ensures prepared.Some? ==>
        prepared.value == Started(old(repository.rows), id)
          && Stores(old(repository.rows), repository.rows, prepared.value)
      ensures prepared.None? ==> repository.rows == old(repository.rows)
    {
      var found := Get(repository.rows, id);
      if found.None? {
        return None;
      }
      var ticket := found.value;
      if ticket.status !in {Backlog, Ready, InProgress} {
        return None;
      }
      PutSame(repository.rows, ticket);
      ghost var original := repository.rows;
      if ticket.status == Backlog {
        ticket := MoveTo(original, ticket, id, Ready);
      }
      if ticket.status == Ready {
        ticket := MoveTo(original, ticket, id, InProgress);
      }
      return Some(ticket);
    }

    method RunPrepared(ghost original: seq<Ticket>, ghost l: Loop, c: Config, env: Environment, start: Ticket)
      returns (end: Ending)
      requires Valid() && ValidConfig(c) && (c.policy.Some? ==> ValidPolicy(c.policy.value))
      requires ValidLoop(l) && Performs(l, c, env) && Runnable(start) && Stores(original, repository.rows, start)
      modifies this, repository
      ensures var run := Run(l, start, l.baseline, 0);
              && end == run.ending && attempts == run.attempts && worktree == run.tree
              && Stores(original, repository.rows, if end == Cancelled then Requeued(run.ticket) else run.ticket)
    {
      ResetWorktree(c.baseline);
      var ticket;
      end, ticket := RunTicketInWorktree(original, l, c, env, start);
      if end == Cancelled {
        Persist(original, ticket, Requeued(ticket));
      }
    }

    /** A whole run in a fresh worktree. It passes exactly when its last attempt wrote every file, was not cancelled
        and passed its tests. A cancelled ticket goes back to ready with no attempts. */
    method RunTicket(c: Config, env: Environment, id: string) returns (ending: Option<Ending>)
      requires Valid() && ValidConfig(c) && (c.policy.Some? ==> ValidPolicy(c.policy.value))
      requires ValidRows(repository.rows)
      modifies this, repository
      ensures ending.Some? <==> CanStart(old(repository.rows), id)
      ensures ending.None? ==> repository.rows == old(repository.rows)
      ensures EndsOnTheTable(c, env, old(repository.rows), id, ending, attempts, repository.rows)
      ensures ending == Some(DiffReady) ==> attempts != [] && worktree == env.afterTests(|attempts| - 1)
      ensures ending.Some? ==>
        && ValidLoop(LoopOf(c, env))
        && var run := Run(LoopOf(c, env), Started(old(repository.rows), id), c.baseline, 0);
           && ending.value == run.ending && attempts == run.attempts
           && Stores(old(repository.rows), repository.rows,
                     if run.ending == Cancelled then Requeued(run.ticket) else run.ticket)
    {
      var prepared := PrepareTicket(id);
      if prepared.None? {
        return None;
      }
      LoopOfPerforms(c, env);
      LoopIsValid(c, env);
      var end := RunPrepared(old(repository.rows), LoopOf(c, env), c, env, prepared.value);
      RunEndsOnTheTable(c, env, old(repository.rows), id, repository.rows);
      TestedTreeStays(c, env, prepared.value, c.baseline);
      return Some(end);
    }
  }

  /** What a run is and leaves behind, told by the ticket's row and the run's attempts. */
  ghost predicate EndsOnTheTable(c: Config, env: Environment, rows: seq<Ticket>, id: string, ending: Option<Ending>,
                                 attempts: seq<Attempt>, after: seq<Ticket>)
  {
    var before, now := Get(rows, id), Get(after, id);
    && (ending.Some? <==> before.Some? && (before.value.status == Backlog || before.value.status == Ready
                                           || before.value.status == InProgress))
    && (ending.Some? ==>
          && now.Some?
          && EndsByItsAttempts(c, env, before.value.targetFiles, ending.value, attempts)
          && match ending.value
             case DiffReady => now.value.status == DiffPending
             case Failed => now.value.status == Blocked
             case Cancelled => now.value.status == Ready && now.value.execution.attempts == 0
             case Crashed => now.value.status == InProgress || now.value.status == Testing)
  }

  lemma RunEndsOnTheTable(c: Config, env: Environment, rows: seq<Ticket>, id: string, after: seq<Ticket>)
    requires ValidRows(rows) && CanStart(rows, id) && (c.policy.Some? ==> ValidPolicy(c.policy.value))
    requires ValidLoop(LoopOf(c, env))
    requires var run := Run(LoopOf(c, env), Started(rows, id), c.baseline, 0);
             Stores(rows, after, if run.ending == Cancelled then Requeued(run.ticket) else run.ticket)
    ensures var run := Run(LoopOf(c, env), Started(rows, id), c.baseline, 0);
            EndsOnTheTable(c, env, rows, id, Some(run.ending), run.attempts, after)
  {
    var t := Started(rows, id);
    var run := Run(LoopOf(c, env), t, c.baseline, 0);
    RunEndsByItsAttempts(c, env, t, c.baseline);
    var stored := if run.ending == Cancelled then Requeued(run.ticket) else run.ticket;
    assert Stored(stored) == stored;
    GetAfterPut(rows, stored, id);
  }

  predicate CanStart(rows: seq<Ticket>, id: string)
    requires ValidRows(rows)
  {
    Get(rows, id).Some? && Get(rows, id).value.status in {Backlog, Ready, InProgress}
  }

  function Started(rows: seq<Ticket>, id: string): Ticket
    requires ValidRows(rows) && CanStart(rows, id)
    ensures Runnable(Started(rows, id))
  {
    Get(rows, id).value.(status := InProgress)
  }

  function Requeued(t: Ticket): Ticket {
    t.(status := Ready, execution := t.execution.(attempts := 0))
  }

  /** The attempts from number n on, when these have been made before. */
  function RunAfter(l: Loop, t: Ticket, tree: Tree, n: nat, attempts: seq<Attempt>): Outcome
    requires ValidLoop(l) && Runnable(t)
    decreases |l.later(t.execution.assignedModel)|, RetriesLeft(t)
  {
    if l.cancelled(n) then Outcome(Cancelled, t, tree, attempts)
    else
      var trial := l.attempt(t, tree, n);
      if GoesOn(l, trial) then
        RunAfter(l, l.fail(trial.ticket), l.baseline, n + 1, attempts + [trial.attempt])
      else Prepend(attempts, Concluded(l, trial))
  }

  lemma PrependTwice(earlier: seq<Attempt>, attempts: seq<Attempt>, later: Outcome)
    ensures Prepend(earlier, Prepend(attempts, later)) == Prepend(earlier + attempts, later)
  {
    assert (earlier + attempts) + later.attempts == earlier + (attempts + later.attempts);
  }

  lemma {:induction false} RunAfterIsRun(l: Loop, t: Ticket, tree: Tree, n: nat, attempts: seq<Attempt>)
    requires ValidLoop(l) && Runnable(t)
    ensures RunAfter(l, t, tree, n, attempts) == Prepend(attempts, Run(l, t, tree, n))
    decreases |l.later(t.execution.assignedModel)|, RetriesLeft(t)
  {
    if l.cancelled(n) {
      assert attempts + [] == attempts;
    } else {
      var trial := l.attempt(t, tree, n);
      if GoesOn(l, trial) {
        var next := l.fail(trial.ticket);
        RunAfterIsRun(l, next, l.baseline, n + 1, attempts + [trial.attempt]);
        PrependTwice(attempts, [trial.attempt], Run(l, next, l.baseline, n + 1));
      }
    }
  }

  lemma RunAfterNothing(l: Loop, t: Ticket, tree: Tree)
    requires ValidLoop(l) && Runnable(t)
    ensures RunAfter(l, t, tree, 0, []) == Run(l, t, tree, 0)
  {
    RunAfterIsRun(l, t, tree, 0, []);
    assert [] + Run(l, t, tree, 0).attempts == Run(l, t, tree, 0).attempts;
  }

  /** The targets from k on, when these dispatches have been made before. */
  function GenerateAfter(c: Config, env: Environment, targets: seq<string>, n: nat, k: nat, d: Desk,
                         dispatches: seq<Desk>): Generation
    requires k <= |targets|
    decreases |targets| - k
  {
    if k == |targets| then Generation(AllWritten, d, dispatches)
    else if env.cancelledBefore(n, k) then Generation(Stopped, d, dispatches)
    else
      var first := Dispatch(c, env, targets[k], n, k, d);
      if first.end != AllWritten then Generation(first.end, first.desk, dispatches + [d])
      else GenerateAfter(c, env, targets, n, k + 1, first.desk, dispatches + [d])
  }

  lemma {:induction false} GenerateAfterIsGenerate(c: Config, env: Environment, targets: seq<string>, n: nat, k: nat,
                                                   d: Desk, dispatches: seq<Desk>)
    requires k <= |targets|
    ensures var g := Generate(c, env, targets, n, k, d);
            GenerateAfter(c, env, targets, n, k, d, dispatches) == g.(dispatches := dispatches + g.dispatches)
    decreases |targets| - k
  {
    if k < |targets| && !env.cancelledBefore(n, k) {
      var first := Dispatch(c, env, targets[k], n, k, d);
      if first.end == AllWritten {
        GenerateAfterIsGenerate(c, env, targets, n, k + 1, first.desk, dispatches + [d]);
        var later := Generate(c, env, targets, n, k + 1, first.desk);
        assert (dispatches + [d]) + later.dispatches == dispatches + ([d] + later.dispatches);
      }
    }
  }

  lemma GenerateAfterNothing(c: Config, env: Environment, targets: seq<string>, n: nat, d: Desk)
    ensures GenerateAfter(c, env, targets, n, 0, d, []) == Generate(c, env, targets, n, 0, d)
  {
    GenerateAfterIsGenerate(c, env, targets, n, 0, d, []);
    var g := Generate(c, env, targets, n, 0, d);
    assert [] + g.dispatches == g.dispatches;
  }

  lemma RefreshOfOne(paths: Paths, files: seq<ContextFile>, tree: Tree, target: string)
    ensures Refresh(paths, files, tree, [target]) == RefreshOne(paths, files, tree, target)
  {
    assert [target][..0] == [];
  }
}
