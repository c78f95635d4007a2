/** Everything that can happen to one ticket's status, as atomic steps, and the gates on the way to done. */
module Lifecycle {
  import opened Basics
  import opened Tickets
  import opened StateMachine
  import CrashRecovery

  datatype Step =
    | Move(target: TicketStatus)      // the move, approve, accept and reject endpoints, and the services' own moves
    | FailTest                        // a test failure recorded by the execution loop
    | FallBack(model: string)         // the execution loop's next model
    | CancelRun                       // the execution loop's reaction to a cancellation
    | RecoverTesting                  // crash recovery
    | ApproveDiff(committed: bool)    // committed: git accepted the diff
    | ApproveInterrupted              // the approval stops between its save and its move
    | RejectDiff
    | ReviewVerdict(approved: bool)
    | SplitUp
    | Abandon
    | Retry
    | Escalate
    | Cancel
    | Rerun
    | Merge(merged: bool)             // merged, reverted: git did it
    | Revert(reverted: bool)
    | Edit(edited: Ticket)            // any save but of status, git metadata, abandoned flag and recovery note

  predicate Live(status: TicketStatus) {
    status in {InProgress, Testing}
  }

  /** Is the step taken, or refused with an error? */
  predicate Accepts(t: Ticket, step: Step) {
    match step
    case Move(target) => CanTransition(t.status, target)
    case FailTest => t.status == Testing
    case FallBack(_) => t.status == Testing
    case CancelRun => true
    case RecoverTesting => t.status == Testing
    case ApproveDiff(committed) => t.status == DiffPending && committed
    case ApproveInterrupted => t.status == DiffPending
    case RejectDiff => t.status == DiffPending
    case ReviewVerdict(_) => t.status == Review
    case SplitUp => !Live(t.status) && t.status !in {Done, Abandoned, Split}
    case Abandon => !Live(t.status) && t.status !in {Done, Abandoned, Split}
    case Retry => t.status in {Blocked, Backlog}
    case Escalate => true
    case Cancel => Live(t.status)
    case Rerun => true
    case Merge(merged) => t.metadata.git.branch && t.metadata.git.base && merged
    case Revert(reverted) => CanRevert(t.metadata.git) && reverted
    case Edit(edited) =>
      && edited.id == t.id && edited.status == t.status
      && edited.metadata.git == t.metadata.git && edited.metadata.abandoned == t.metadata.abandoned
      && (t.metadata.orphanReason ==> edited.metadata.orphanReason)
  }

  predicate CanRevert(git: GitTrail) {
    git.mergeCommit && (git.mergedTo || git.base)
  }

  function WithoutAttempts(t: Ticket): Ticket {
    t.(execution := t.execution.(attempts := 0))
  }

  /** The ticket waits for no approval any more. */
  function WithoutApproval(t: Ticket): Ticket {
    t.(metadata := t.metadata.(decisions := t.metadata.decisions.(needsApproval := false)))
  }

  function WithGit(t: Ticket, git: GitTrail): Ticket {
    t.(metadata := t.metadata.(git := git))
  }

  /** The ticket that is saved. */
  function After(t: Ticket, step: Step): Ticket
    requires Accepts(t, step)
  {
    match step
    case Move(target) => t.(status := target)
    case FailTest => TestFailure(t).ticket
    case FallBack(model) =>
      t.(status := InProgress, execution := t.execution.(assignedModel := model, attempts := 0))
    case CancelRun => WithoutAttempts(t).(status := Ready)
    case RecoverTesting => CrashRecovery.Recovered(t)
    case ApproveDiff(_) => WithGit(t, t.metadata.git.(branch := true, base := true)).(status := Review)
    case ApproveInterrupted => WithGit(t, t.metadata.git.(branch := true, base := true))
    case RejectDiff => WithoutAttempts(t).(status := InProgress)
    case ReviewVerdict(approved) => t.(status := if approved then AwaitingAcceptance else Backlog)
    case SplitUp => WithoutApproval(t).(status := Split)
    case Abandon =>
      var closed := WithoutApproval(t);
      closed.(status := Abandoned, metadata := closed.metadata.(abandoned := true))
    case Retry => WithoutAttempts(t).(status := Ready)
    case Escalate => t.(status := Blocked)
    case Cancel => WithoutAttempts(t).(status := Ready)
    case Rerun => WithoutAttempts(t).(status := Ready)
    case Merge(_) => WithGit(t, t.metadata.git.(mergeCommit := true, mergedTo := true))
    case Revert(_) => t.(status := AwaitingAcceptance)
    case Edit(edited) => edited
  }

  function Next(t: Ticket, step: Step): Ticket {
    if Accepts(t, step) then Stored(After(t, step)) else t
  }

  function Final(t: Ticket, steps: seq<Step>): Ticket
    decreases |steps|
  {
    if steps == [] then t else Final(Next(t, steps[0]), steps[1..])
  }

  /** The statuses a run goes through, the first one included. */
  function Visited(t: Ticket, steps: seq<Step>): (r: seq<TicketStatus>)
    ensures |r| == |steps| + 1
    decreases |steps|
  {
    if steps == [] then [t.status] else [t.status] + Visited(Next(t, steps[0]), steps[1..])
  }

  /** No approval of the run is interrupted. */
  predicate Uninterrupted(steps: seq<Step>) {
    forall i :: 0 <= i < |steps| ==> steps[i] != ApproveInterrupted
  }

  // ---------- The steps, told by the statuses ----------

  /** The statuses a step other than a move or an edit is taken from. */
  predicate TakenFrom(step: Step, status: TicketStatus) {
    match step
    case FailTest | FallBack(_) | RecoverTesting => status == Testing
    case ApproveDiff(_) | ApproveInterrupted | RejectDiff => status == DiffPending
    case ReviewVerdict(_) => status == Review
    case SplitUp | Abandon =>
      || status == Backlog || status == Ready || status == DiffPending
      || status == Review || status == AwaitingAcceptance || status == Blocked
    case Retry => status == Blocked || status == Backlog
    case Cancel => status == InProgress || status == Testing
    case _ => true
  }

  /** What git has to have, or to have done, for it. */
  predicate GitAllows(step: Step, git: GitTrail) {
    match step
    case ApproveDiff(committed) => committed
    case Merge(merged) => merged && git.branch && git.base
    case Revert(reverted) => reverted && git.mergeCommit && (git.mergedTo || git.base)
    case _ => true
  }

  /** The status that a step other than a move or an edit leads to. */
  function LeadsTo(t: Ticket, step: Step): TicketStatus {
    match step
    case FailTest => if t.execution.attempts < t.execution.retryBudget then InProgress else Blocked
    case FallBack(_) | RecoverTesting | RejectDiff => InProgress
    case CancelRun | Retry | Cancel | Rerun => Ready
    case ApproveDiff(_) => Review
    case ReviewVerdict(approved) => if approved then AwaitingAcceptance else Backlog
    case SplitUp => Split
    case Abandon => Abandoned
    case Escalate => Blocked
    case Revert(_) => AwaitingAcceptance
    case _ => t.status
  }

  /** An approval records branch and base, a merge its commit and where to; nothing else touches the git columns. */
  predicate GitAfter(step: Step, before: GitTrail, after: GitTrail) {
    && (after.branch <==> before.branch || step.ApproveDiff? || step.ApproveInterrupted?)
    && (after.base <==> before.base || step.ApproveDiff? || step.ApproveInterrupted?)
    && (after.mergeCommit <==> before.mergeCommit || step.Merge?)
    && (after.mergedTo <==> before.mergedTo || step.Merge?)
  }

  function AttemptsAfter(step: Step, attempts: nat): nat {
    match step
    case FailTest => attempts + 1
    case FallBack(_) | CancelRun | RejectDiff | Retry | Cancel | Rerun => 0
    case _ => attempts
  }

  /** When a step is taken and what it does to status, attempts, git columns and flags; everything else stays. */
  lemma StepsByTheStatuses(t: Ticket, step: Step)
    requires !step.Move? && !step.Edit? && !t.metadata.abandoned
    ensures Accepts(t, step) <==> TakenFrom(step, t.status) && GitAllows(step, t.metadata.git)
    ensures !Accepts(t, step) ==> Next(t, step) == t
    ensures Accepts(t, step) ==>
              var s := Next(t, step);
              && s.status == LeadsTo(t, step)
              && s.execution.attempts == AttemptsAfter(step, t.execution.attempts)
              && s.execution.retryBudget == t.execution.retryBudget
              && s.execution.assignedModel == (if step.FallBack? then step.model else t.execution.assignedModel)
              && GitAfter(step, t.metadata.git, s.metadata.git)
              && s.metadata.abandoned == step.Abandon?
              && s.metadata.orphanReason == (t.metadata.orphanReason || step.RecoverTesting?)
              && s.metadata.lease == t.metadata.lease
              && (s.metadata.decisions.needsApproval
                  <==> t.metadata.decisions.needsApproval && !step.SplitUp? && !step.Abandon?)
              && s.metadata.decisions.accepted == t.metadata.decisions.accepted
              && s.metadata.decisions.rejected == t.metadata.decisions.rejected
              && s.id == t.id && s.dependencies == t.dependencies && s.dependsOn == t.dependsOn
              && s.targetFiles == t.targetFiles && s.contextFiles == t.contextFiles
  {
  }

  // ---------- The gates ----------

  const GATES := [InProgress, Testing, DiffPending, Review, AwaitingAcceptance, Done]

  const GATES_BUT_REVIEW := [InProgress, Testing, DiffPending, AwaitingAcceptance, Done]

  /** The gates of runs whose approvals are not interrupted, and of all runs. */
  function Gates(uninterrupted: bool): seq<TicketStatus> {
    if uninterrupted then GATES else GATES_BUT_REVIEW
  }

  /** How many gates, in their order, have been passed after one more status. */
  function Advance(gates: seq<TicketStatus>, passed: nat, status: TicketStatus): nat {
    if passed < |gates| && status == gates[passed] then passed + 1 else passed
  }

  /** How many gates, in their order, the visited statuses contain. */
  function Passed(gates: seq<TicketStatus>, visited: seq<TicketStatus>): nat {
    if visited == [] then 0
    else Advance(gates, Passed(gates, visited[..|visited| - 1]), visited[|visited| - 1])
  }

  /** A status can only be there once these gates have been passed. */
  function GatesBehind(uninterrupted: bool, status: TicketStatus): nat {
    match status
    case InProgress => 1
    case Testing => 2
    case DiffPending => 3
    case Review => if uninterrupted then 4 else 3
    case AwaitingAcceptance => if uninterrupted then 5 else 4
    case Done => if uninterrupted then 6 else 5
    case _ => 0
  }

  /** And so with a git record. */
  predicate Gated(uninterrupted: bool, t: Ticket, passed: nat) {
    && Stored(t) == t
    && passed >= GatesBehind(uninterrupted, t.status)
    && (t.metadata.git.branch || t.metadata.git.mergeCommit ==> passed >= if uninterrupted then 4 else 3)
  }

  lemma StepKeepsGated(uninterrupted: bool, t: Ticket, step: Step, passed: nat)
    requires Gated(uninterrupted, t, passed) && (uninterrupted ==> step != ApproveInterrupted)
    ensures Gated(uninterrupted, Next(t, step), Advance(Gates(uninterrupted), passed, Next(t, step).status))
  {
  }

  lemma {:induction false} PassedAppend(gates: seq<TicketStatus>, visited: seq<TicketStatus>, status: TicketStatus)
    ensures Passed(gates, visited + [status]) == Advance(gates, Passed(gates, visited), status)
  {
    assert (visited + [status])[..|visited|] == visited;
  }

  /** Whatever came before, a gated ticket stays gated over any run. */
  lemma {:induction false} RunKeepsGated(uninterrupted: bool, before: seq<TicketStatus>, t: Ticket, steps: seq<Step>)
    requires Gated(uninterrupted, t, Passed(Gates(uninterrupted), before + [t.status]))
    requires uninterrupted ==> Uninterrupted(steps)
    ensures Gated(uninterrupted, Final(t, steps), Passed(Gates(uninterrupted), before + Visited(t, steps)))
    decreases |steps|
  {
    if steps != [] {
      var next, gates := Next(t, steps[0]), Gates(uninterrupted);
      StepKeepsGated(uninterrupted, t, steps[0], Passed(gates, before + [t.status]));
      PassedAppend(gates, before + [t.status], next.status);
      RunKeepsGated(uninterrupted, before + [t.status], next, steps[1..]);
      VisitedStep(before, t.status, Visited(next, steps[1..]));
    }
  }

  lemma VisitedStep(before: seq<TicketStatus>, status: TicketStatus, later: seq<TicketStatus>)
    ensures before + ([status] + later) == (before + [status]) + later
  {
  }

  /** The first k gates, found at increasing positions. */
  ghost predicate FoundInOrder(gates: seq<TicketStatus>, visited: seq<TicketStatus>, positions: seq<nat>, k: nat) {
    && k <= |gates| && |positions| == k
    && (forall i :: 0 <= i < k ==> positions[i] < |visited| && visited[positions[i]] == gates[i])
    && (forall i, j :: 0 <= i < j < k ==> positions[i] < positions[j])
  }

  lemma {:induction false} PassedMeansFound(gates: seq<TicketStatus>, visited: seq<TicketStatus>)
    returns (positions: seq<nat>)
    ensures FoundInOrder(gates, visited, positions, Passed(gates, visited))
  {
    if visited == [] {
      positions := [];
    } else {
      var shorter := visited[..|visited| - 1];
      positions := PassedMeansFound(gates, shorter);
      if Passed(gates, visited) > Passed(gates, shorter) {
        positions := positions + [|visited| - 1];
      }
    }
  }

  /** A ticket as created: in backlog or ready, without git metadata. */
  predicate Fresh(t: Ticket) {
    Stored(t) == t && t.status in {Backlog, Ready} && !t.metadata.git.branch && !t.metadata.git.mergeCommit
  }

  lemma FreshRunIsGated(uninterrupted: bool, t: Ticket, steps: seq<Step>)
    requires Fresh(t) && (uninterrupted ==> Uninterrupted(steps))
    ensures Gated(uninterrupted, Final(t, steps), Passed(Gates(uninterrupted), Visited(t, steps)))
  {
    PassedAppend(Gates(uninterrupted), [], t.status);
    assert [] + [t.status] == [t.status];
    RunKeepsGated(uninterrupted, [], t, steps);
    assert [] + Visited(t, steps) == Visited(t, steps);
  }

  /** Every run that takes a fresh ticket to done, and in which no approval is interrupted, has passed in this
      order in progress, testing, diff pending, review and awaiting acceptance: however often the ticket is
      retried, rerun, cancelled, escalated, merged or reverted in between. */
  lemma DoneMeansAllGates(t: Ticket, steps: seq<Step>) returns (positions: seq<nat>)
    requires Fresh(t) && Uninterrupted(steps) && Final(t, steps).status == Done
    ensures FoundInOrder(GATES, Visited(t, steps), positions, |GATES|)
  {
    FreshRunIsGated(true, t, steps);
    positions := PassedMeansFound(GATES, Visited(t, steps));
  }

  /** With interruptions, it has passed all of them but the review. */
  lemma DoneMeansAllGatesButReview(t: Ticket, steps: seq<Step>) returns (positions: seq<nat>)
    requires Fresh(t) && Final(t, steps).status == Done
    ensures FoundInOrder(GATES_BUT_REVIEW, Visited(t, steps), positions, |GATES_BUT_REVIEW|)
  {
    FreshRunIsGated(false, t, steps);
    positions := PassedMeansFound(GATES_BUT_REVIEW, Visited(t, steps));
  }

  /** A merge record means that a diff was approved after testing; if no approval was interrupted, that it
      went to review. */
  lemma MergedMeansReviewed(t: Ticket, steps: seq<Step>, uninterrupted: bool) returns (positions: seq<nat>)
    requires Fresh(t) && Final(t, steps).metadata.git.mergeCommit && (uninterrupted ==> Uninterrupted(steps))
    ensures var k := if uninterrupted then 4 else 3;
            |positions| >= k && FoundInOrder(GATES, Visited(t, steps), positions[..k], k)
  {
    FreshRunIsGated(uninterrupted, t, steps);
    positions := PassedMeansFound(Gates(uninterrupted), Visited(t, steps));
  }

  // ---------- Runs with interruptions, one by one ----------

  /** How the status follows from the gates passed when approvals may be interrupted: either the review was
      left out and nothing counts after diff pending, or all gates count. */
  predicate GatedOrSkipped(t: Ticket, passed: nat) {
    && Stored(t) == t
    && passed <= |GATES|
    && (t.status in {InProgress, Testing, DiffPending, Review} ==> passed >= GatesBehind(true, t.status))
    && (t.status == AwaitingAcceptance ==> passed == 3 || passed >= 5)
    && (t.status == Done ==> passed == 3 || passed == 6)
    && (t.metadata.git.branch || t.metadata.git.mergeCommit ==> passed >= 3)
  }

  lemma StepKeepsGatedOrSkipped(t: Ticket, step: Step, passed: nat)
    requires GatedOrSkipped(t, passed)
    ensures var next := Next(t, step);
            var after := Advance(GATES, passed, next.status);
            && GatedOrSkipped(next, after)
            && (after >= 4 <==> passed >= 4 || next.status == Review)
  {
  }

  lemma {:induction false} RunKeepsGatedOrSkipped(before: seq<TicketStatus>, t: Ticket, steps: seq<Step>)
    requires GatedOrSkipped(t, Passed(GATES, before + [t.status]))
    requires Passed(GATES, before + [t.status]) >= 4 <==> Review in before + [t.status]
    ensures var visited := before + Visited(t, steps);
            && GatedOrSkipped(Final(t, steps), Passed(GATES, visited))
            && (Passed(GATES, visited) >= 4 <==> Review in visited)
    decreases |steps|
  {
    if steps != [] {
      var next := Next(t, steps[0]);
      StepKeepsGatedOrSkipped(t, steps[0], Passed(GATES, before + [t.status]));
      PassedAppend(GATES, before + [t.status], next.status);
      RunKeepsGatedOrSkipped(before + [t.status], next, steps[1..]);
      VisitedStep(before, t.status, Visited(next, steps[1..]));
    }
  }

  /** A run that takes a fresh ticket to done, interrupted or not, has passed all gates in their order exactly
      when it entered review at all. */
  lemma AllGatesIffReviewed(t: Ticket, steps: seq<Step>)
    requires Fresh(t) && Final(t, steps).status == Done
    ensures (exists positions :: FoundInOrder(GATES, Visited(t, steps), positions, |GATES|))
      <==> Review in Visited(t, steps)
  {
    PassedAppend(GATES, [], t.status);
    assert [] + [t.status] == [t.status];
    RunKeepsGatedOrSkipped([], t, steps);
    assert [] + Visited(t, steps) == Visited(t, steps);
    if Review in Visited(t, steps) {
      var positions := PassedMeansFound(GATES, Visited(t, steps));
    }
    forall positions | FoundInOrder(GATES, Visited(t, steps), positions, |GATES|) ensures Review in Visited(t, steps) {
      assert Visited(t, steps)[positions[3]] == GATES[3];
    }
  }

  // ---------- Ways to done without testing or without review ----------

  /** The merge can be made and then reverted, or is already there to be reverted. */
  predicate Revertible(t: Ticket) {
    CanRevert(t.metadata.git) || (t.metadata.git.branch && t.metadata.git.base)
  }

  /** The ticket is past its tests, or can be put there by a merge and a revert. */
  predicate PastTests(t: Ticket) {
    !t.metadata.abandoned && (t.status in {Testing, DiffPending, Review, AwaitingAcceptance, Done} || Revertible(t))
  }

  /** The ticket is past its review, or can be put there. */
  predicate PastReview(t: Ticket) {
    !t.metadata.abandoned && (t.status in {Review, AwaitingAcceptance, Done} || Revertible(t))
  }

  /** No step of the run enters this status. */
  predicate Avoids(status: TicketStatus, t: Ticket, steps: seq<Step>)
    decreases |steps|
  {
    steps == [] || (Next(t, steps[0]).status != status && Avoids(status, Next(t, steps[0]), steps[1..]))
  }

  predicate ReachesDone(avoided: TicketStatus, t: Ticket, steps: seq<Step>) {
    Avoids(avoided, t, steps) && Final(t, steps).status == Done
  }

  lemma OnlyTestingGetsPast(t: Ticket, step: Step)
    requires Stored(t) == t && !PastTests(t) && Next(t, step).status != Testing
    ensures !PastTests(Next(t, step)) && Stored(Next(t, step)) == Next(t, step)
  {
  }

  lemma {:induction false} NoWayAroundTests(t: Ticket, steps: seq<Step>)
    requires Stored(t) == t && !PastTests(t) && Avoids(Testing, t, steps)
    ensures Final(t, steps).status != Done
    decreases |steps|
  {
    if steps != [] {
      OnlyTestingGetsPast(t, steps[0]);
      NoWayAroundTests(Next(t, steps[0]), steps[1..]);
    }
  }

  lemma OnlyReviewGetsPast(t: Ticket, step: Step)
    requires Stored(t) == t && !PastReview(t) && Next(t, step).status != Review && step != ApproveInterrupted
    ensures !PastReview(Next(t, step)) && Stored(Next(t, step)) == Next(t, step)
  {
  }

  lemma {:induction false} NoWayAroundReview(t: Ticket, steps: seq<Step>)
    requires Stored(t) == t && !PastReview(t) && Avoids(Review, t, steps) && Uninterrupted(steps)
    ensures Final(t, steps).status != Done
    decreases |steps|
  {
    if steps != [] {
      OnlyReviewGetsPast(t, steps[0]);
      NoWayAroundReview(Next(t, steps[0]), steps[1..]);
    }
  }

  lemma {:induction false} AbandonedStays(t: Ticket, steps: seq<Step>)
    requires Stored(t) == t && t.metadata.abandoned
    ensures Final(t, steps).status == Abandoned
    decreases |steps|
  {
    if steps != [] {
      AbandonedStays(Next(t, steps[0]), steps[1..]);
    }
  }

  lemma OneStepBefore(avoided: TicketStatus, t: Ticket, step: Step, next: Ticket, later: seq<Step>)
    requires Next(t, step) == next && next.status != avoided && ReachesDone(avoided, next, later)
    ensures ReachesDone(avoided, t, [step] + later)
    ensures Uninterrupted(later) && step != ApproveInterrupted ==> Uninterrupted([step] + later)
  {
    assert ([step] + later)[1..] == later;
  }

  /** The status that a ticket past its tests moves to next. */
  function Onward(status: TicketStatus): TicketStatus {
    match status
    case Testing => DiffPending
    case DiffPending => Review
    case Review => AwaitingAcceptance
    case _ => Done
  }

  function MovesToDone(status: TicketStatus): seq<Step>
    decreases |GATES| - GatesBehind(true, Onward(status)) + if status == Done then 0 else 1
  {
    if status !in {Testing, DiffPending, Review, AwaitingAcceptance} then []
    else [Move(Onward(status))] + MovesToDone(Onward(status))
  }

  lemma {:induction false} MovesReachDone(avoided: TicketStatus, t: Ticket)
    requires Stored(t) == t && !t.metadata.abandoned
    requires avoided == Testing || (avoided == Review && t.status !in {Testing, DiffPending})
    requires t.status in {Testing, DiffPending, Review, AwaitingAcceptance, Done}
    ensures ReachesDone(avoided, t, MovesToDone(t.status)) && Uninterrupted(MovesToDone(t.status))
    decreases |GATES| - GatesBehind(true, Onward(t.status)) + if t.status == Done then 0 else 1
  {
    if t.status != Done {
      var next := t.(status := Onward(t.status));
      MovesReachDone(avoided, next);
      OneStepBefore(avoided, t, Move(Onward(t.status)), next, MovesToDone(next.status));
    }
  }

  lemma RevertReachesDone(avoided: TicketStatus, t: Ticket)
    requires Stored(t) == t && !t.metadata.abandoned && CanRevert(t.metadata.git) && avoided in {Testing, Review}
    ensures var steps := [Revert(true)] + MovesToDone(AwaitingAcceptance);
            ReachesDone(avoided, t, steps) && Uninterrupted(steps)
  {
    var next := t.(status := AwaitingAcceptance);
    MovesReachDone(avoided, next);
    OneStepBefore(avoided, t, Revert(true), next, MovesToDone(AwaitingAcceptance));
  }

  lemma RevertibleReachesDone(avoided: TicketStatus, t: Ticket) returns (steps: seq<Step>)
    requires Stored(t) == t && !t.metadata.abandoned && Revertible(t)
    requires avoided == Testing || avoided == Review
    requires t.status != avoided || CanRevert(t.metadata.git)
    ensures ReachesDone(avoided, t, steps) && Uninterrupted(steps)
  {
    steps := [Revert(true)] + MovesToDone(AwaitingAcceptance);
    if CanRevert(t.metadata.git) {
      RevertReachesDone(avoided, t);
    } else {
      var merged := WithGit(t, t.metadata.git.(mergeCommit := true, mergedTo := true));
      RevertReachesDone(avoided, merged);
      OneStepBefore(avoided, t, Merge(true), merged, steps);
      steps := [Merge(true)] + steps;
    }
  }

  /** A ticket can get to done without entering testing again exactly when it is not abandoned and is past
      its tests, or has a branch with a base to merge, or a merge to revert: the revert endpoint puts any
      such ticket before acceptance, whatever its status. */
  lemma DoneWithoutTestingIff(t: Ticket)
    requires Stored(t) == t
    ensures (exists steps :: ReachesDone(Testing, t, steps)) <==> PastTests(t)
  {
    if PastTests(t) {
      var steps;
      if t.status in {Testing, DiffPending, Review, AwaitingAcceptance, Done} {
        MovesReachDone(Testing, t);
        steps := MovesToDone(t.status);
      } else {
        steps := RevertibleReachesDone(Testing, t);
      }
    } else {
      forall steps ensures !ReachesDone(Testing, t, steps) {
        if Avoids(Testing, t, steps) {
          NoWayAroundTests(t, steps);
        }
      }
    }
  }

  /** As long as no approval is interrupted, a ticket can get to done without entering review again exactly
      when it is not abandoned and is past its review, or has a branch with a base, or a merge to revert. */
  lemma DoneWithoutReviewIff(t: Ticket)
    requires Stored(t) == t
    ensures (exists steps :: Uninterrupted(steps) && ReachesDone(Review, t, steps)) <==> PastReview(t)
  {
    if PastReview(t) {
      var steps;
      if t.status in {Review, AwaitingAcceptance, Done} {
        MovesReachDone(Review, t);
        steps := MovesToDone(t.status);
      } else {
        steps := RevertibleReachesDone(Review, t);
      }
      assert Uninterrupted(steps) && ReachesDone(Review, t, steps);
    } else {
      forall steps | Uninterrupted(steps) ensures !ReachesDone(Review, t, steps) {
        if Avoids(Review, t, steps) {
          NoWayAroundReview(t, steps);
        }
      }
    }
  }

  /** From diff pending, an interrupted approval, a merge and a revert lead past review. */
  lemma InterruptedReachesDone(t: Ticket) returns (steps: seq<Step>)
    requires Stored(t) == t && t.status == DiffPending
    ensures ReachesDone(Review, t, steps)
  {
    var saved := WithGit(t, t.metadata.git.(branch := true, base := true));
    steps := RevertibleReachesDone(Review, saved);
    OneStepBefore(Review, t, ApproveInterrupted, saved, steps);
    steps := [ApproveInterrupted] + steps;
  }

  function UpTo(status: TicketStatus): TicketStatus {
    match status
    case Ready => InProgress
    case InProgress => Testing
    case _ => DiffPending
  }

  lemma {:induction false} RunReachesDone(t: Ticket) returns (steps: seq<Step>)
    requires Stored(t) == t && t.status in {Ready, InProgress, Testing, DiffPending} && !t.metadata.abandoned
    ensures ReachesDone(Review, t, steps)
    decreases 4 - GatesBehind(true, t.status)
  {
    if t.status == DiffPending {
      steps := InterruptedReachesDone(t);
    } else {
      var next := t.(status := UpTo(t.status));
      steps := RunReachesDone(next);
      OneStepBefore(Review, t, Move(UpTo(t.status)), next, steps);
      steps := [Move(UpTo(t.status))] + steps;
    }
  }

  /** If approvals may be interrupted, every ticket that is not abandoned can get to done without review. */
  lemma InterruptedDoneWithoutReviewIff(t: Ticket)
    requires Stored(t) == t
    ensures (exists steps :: ReachesDone(Review, t, steps)) <==> !t.metadata.abandoned
  {
    if t.metadata.abandoned {
      forall steps ensures !ReachesDone(Review, t, steps) {
        AbandonedStays(t, steps);
      }
    } else {
      var next := WithoutAttempts(t).(status := Ready);
      var steps := RunReachesDone(next);
      OneStepBefore(Review, t, Rerun, next, steps);
    }
  }

  lemma {:induction false} AvoidedIsNotVisited(status: TicketStatus, t: Ticket, steps: seq<Step>)
    requires t.status != status && Avoids(status, t, steps)
    ensures status !in Visited(t, steps)
    decreases |steps|
  {
    if steps != [] {
      AvoidedIsNotVisited(status, Next(t, steps[0]), steps[1..]);
    }
  }

  ghost predicate PassesAllGates(t: Ticket, steps: seq<Step>) {
    exists positions :: FoundInOrder(GATES, Visited(t, steps), positions, |GATES|)
  }

  /** All runs that take a fresh ticket to done pass all gates exactly if approvals are not interrupted. */
  lemma GatesHoldIff(t: Ticket, interruptible: bool)
    requires Fresh(t)
    ensures (forall steps :: (interruptible || Uninterrupted(steps)) && Final(t, steps).status == Done ==>
        PassesAllGates(t, steps))
      <==> !interruptible
  {
    if interruptible {
      InterruptedDoneWithoutReviewIff(t);
      var steps :| ReachesDone(Review, t, steps);
      AvoidedIsNotVisited(Review, t, steps);
      AllGatesIffReviewed(t, steps);
    } else {
      forall steps | Uninterrupted(steps) && Final(t, steps).status == Done ensures PassesAllGates(t, steps) {
        var positions := DoneMeansAllGates(t, steps);
      }
    }
  }

  // ---------- The note of a crash recovery ----------

  lemma {:induction false} NoteIsKept(t: Ticket, steps: seq<Step>)
    requires t.metadata.orphanReason
    ensures Final(t, steps).metadata.orphanReason
    decreases |steps|
  {
    if steps != [] {
      NoteIsKept(Next(t, steps[0]), steps[1..]);
    }
  }

  /** The note of a recovery outlives its occasion: whatever happens to the ticket afterwards, no later
      recovery repairs it when it is orphaned in progress again. */
  lemma RepairedOnceIsPassedOver(t: Ticket, registered: set<string>, steps: seq<Step>, later: set<string>)
    requires CrashRecovery.Orphaned(t, registered)
    requires Final(CrashRecovery.Repaired(t, registered), steps).status == InProgress
    ensures var orphan := Final(CrashRecovery.Repaired(t, registered), steps);
            !CrashRecovery.Orphaned(orphan, later) && CrashRecovery.Repaired(orphan, later) == orphan
  {
    NoteIsKept(CrashRecovery.Repaired(t, registered), steps);
  }
}
