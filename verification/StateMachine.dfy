/** The ticket state machine, its retry counter, and the service that applies it to stored tickets. */
module StateMachine {
  import opened Basics
  import opened Tickets
  import opened TicketStore

  function LegalTransitions(source: TicketStatus): set<TicketStatus> {
    match source
    case Backlog => {Ready}
    case Ready => {InProgress}
    case InProgress => {Testing}
    case Testing => {InProgress, DiffPending}
    case DiffPending => {InProgress, Review}
    case Review => {Backlog, AwaitingAcceptance}
    case AwaitingAcceptance => {Backlog, Done}
    case _ => {}
  }

  predicate CanTransition(source: TicketStatus, target: TicketStatus) {
    target in LegalTransitions(source)
  }

  /** The arrows of the state machine; no other status can be left by a move. */
  const TRANSITIONS := {
    (Backlog, Ready), (Ready, InProgress), (InProgress, Testing), (Testing, InProgress), (Testing, DiffPending),
    (DiffPending, InProgress), (DiffPending, Review), (Review, Backlog), (Review, AwaitingAcceptance),
    (AwaitingAcceptance, Backlog), (AwaitingAcceptance, Done)}

  lemma TransitionsAreTheArrows(source: TicketStatus, target: TicketStatus)
    ensures CanTransition(source, target) <==> (source, target) in TRANSITIONS
  {
  }

  datatype TransitionResult =
    | Moved(ticket: Ticket, fromStatus: TicketStatus, toStatus: TicketStatus, escalated: bool)
    | InvalidTransition
    | TicketNotFound

  function Transition(ticket: Ticket, target: TicketStatus): TransitionResult {
    if !CanTransition(ticket.status, target) then InvalidTransition
    else Moved(Stored(ticket.(status := target)), ticket.status, target, false)
  }

  /** A failed test run spends one attempt; the one beyond the budget blocks the ticket. */
  function TestFailure(ticket: Ticket): TransitionResult {
    if ticket.status != Testing then InvalidTransition
    else
      var attempts := ticket.execution.attempts + 1;
      var retries := attempts <= ticket.execution.retryBudget;
      var target := if retries then InProgress else Blocked;
      var updated := ticket.(status := target, execution := ticket.execution.(attempts := attempts));
      Moved(Stored(updated), Testing, target, !retries)
  }

  /** The same failure, field by field: first the count, then the status that it decides. */
  method RecordTestFailure(ticket: Ticket) returns (result: TransitionResult)
    ensures result == TestFailure(ticket)
  {
    if ticket.status != Testing {
      return InvalidTransition;
    }
    var execution := ticket.execution;
    var attempts := execution.attempts + 1;
    execution := execution.(attempts := attempts);
    var updated := ticket.(execution := execution);
    if attempts <= execution.retryBudget {
      updated := updated.(status := InProgress);
      return Moved(Stored(updated), Testing, InProgress, false);
    }
    updated := updated.(status := Blocked);
    return Moved(Stored(updated), Testing, Blocked, true);
  }

  /** The table after applying a transition to the ticket with this id: unchanged when it is refused. */
  function Applied(rows: seq<Ticket>, id: string, transition: Ticket -> TransitionResult)
    : (TransitionResult, seq<Ticket>)
  {
    match Get(rows, id)
    case None => (TicketNotFound, rows)
    case Some(ticket) =>
      match transition(ticket)
      case Moved(updated, source, target, escalated) =>
        (Moved(Stored(updated), source, target, escalated), Put(rows, updated))
      case refused => (refused, rows)
  }

  class TicketStateService {
    const repository: TicketRepository

    constructor (repository: TicketRepository)
      ensures this.repository == repository
    {
      this.repository := repository;
    }

    method Move(ticketId: string, target: TicketStatus) returns (result: TransitionResult)
      modifies repository
      ensures (result, repository.rows) == Applied(old(repository.rows), ticketId, t => Transition(t, target))
      ensures match Get(old(repository.rows), ticketId)
              case None => result == TicketNotFound && repository.rows == old(repository.rows)
              case Some(t) =>
                if target !in LegalTransitions(t.status)
                then result == InvalidTransition && repository.rows == old(repository.rows)
                else
                  && result == Moved(Stored(t.(status := target)), t.status, target, false)
                  && repository.rows == Put(old(repository.rows), t.(status := target))
    {
      var found := Get(repository.rows, ticketId);
      if found.None? {
        return TicketNotFound;
      }
      var moved := Transition(found.value, target);
      if !moved.Moved? {
        return moved;
      }
      result := SaveMoved(ticketId, moved);
    }

    method RecordFailure(ticketId: string) returns (result: TransitionResult)
      modifies repository
      ensures (result, repository.rows) == Applied(old(repository.rows), ticketId, TestFailure)
      ensures match Get(old(repository.rows), ticketId)
              case None => result == TicketNotFound && repository.rows == old(repository.rows)
              case Some(t) =>
                if t.status != Testing then result == InvalidTransition && repository.rows == old(repository.rows)
                else
                  var spent := t.execution.attempts + 1;
                  var target := if spent <= t.execution.retryBudget then InProgress else Blocked;
                  var failed := t.(status := target, execution := t.execution.(attempts := spent));
                  && result == Moved(Stored(failed), Testing, target, spent > t.execution.retryBudget)
                  && repository.rows == Put(old(repository.rows), failed)
    {
      var found := Get(repository.rows, ticketId);
      if found.None? {
        return TicketNotFound;
      }
      var failed := RecordTestFailure(found.value);
      if !failed.Moved? {
        return failed;
      }
      result := SaveMoved(ticketId, failed);
    }

    method SaveMoved(ticketId: string, moved: TransitionResult) returns (result: TransitionResult)
      requires moved.Moved? && moved.ticket.id == ticketId && Get(repository.rows, ticketId).Some?
      modifies repository
      ensures result == moved.(ticket := Stored(moved.ticket))
      ensures repository.rows == Put(old(repository.rows), moved.ticket)
    {
      var saved := repository.Save(moved.ticket);
      return moved.(ticket := saved.value);
    }
  }

  // ---------- The retry counter ----------

  /** Consecutive failed runs, each started by a move back to testing. */
  function FailRepeatedly(t: Ticket, times: nat): Ticket
    requires t.status == Testing && !t.metadata.abandoned
    decreases times
  {
    if times == 0 then t
    else
      var failed := TestFailure(t).ticket;
      if failed.status == Blocked then failed
      else FailRepeatedly(Transition(failed, Testing).ticket, times - 1)
  }

  /** A ticket survives exactly as many further failures as the budget has attempts left. */
  lemma {:induction false} BudgetIsExact(t: Ticket, times: nat)
    requires t.status == Testing && !t.metadata.abandoned && t.execution.attempts <= t.execution.retryBudget
    ensures FailRepeatedly(t, times).status == Blocked <==> times > t.execution.retryBudget - t.execution.attempts
    ensures FailRepeatedly(t, times).execution.attempts ==
      t.execution.attempts + Min(times, t.execution.retryBudget - t.execution.attempts + 1)
    decreases times
  {
    if times > 0 {
      var failed := TestFailure(t).ticket;
      if failed.status != Blocked {
        BudgetIsExact(Transition(failed, Testing).ticket, times - 1);
      }
    }
  }
}
