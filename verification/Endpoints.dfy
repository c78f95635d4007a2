/** The services and endpoints that write a ticket's status, each shown to take its lifecycle step. */
module Endpoints {
  import opened Basics
  import opened Tickets
  import opened TicketStore
  import opened StateMachine
  import opened Lifecycle

  /** 200, 404, 409 and 400 */
  datatype Reply = Ok | NotFound | Refused | BadRequest

  /** A step that git does not make is a bad request; one that the status does not allow is refused. */
  function RefusalOf(t: Ticket, step: Step): (reply: Reply)
    ensures reply != Ok && reply != NotFound
  {
    match step
    case ApproveDiff(_) => if t.status == DiffPending then BadRequest else Refused
    case Merge(_) => BadRequest
    case Revert(_) => BadRequest
    case _ => Refused
  }

  /** The reply to a request for a lifecycle step, and the table after it. */
  function Served(rows: seq<Ticket>, id: string, step: Step): (Reply, seq<Ticket>) {
    match Get(rows, id)
    case None => (NotFound, rows)
    case Some(t) => if Accepts(t, step) then (Ok, Put(rows, After(t, step))) else (RefusalOf(t, step), rows)
  }

  /** The stored ticket afterwards is the next one of its life; no other ticket changes. */
  lemma ServedTakesTheStep(rows: seq<Ticket>, id: string, step: Step, other: string)
    requires ValidRows(rows) && Get(rows, id).Some?
    ensures var after := Served(rows, id, step).1;
            && ValidRows(after)
            && Get(after, id) == Some(Next(Get(rows, id).value, step))
            && (other != id ==> Get(after, other) == Get(rows, other))
  {
    var t := Get(rows, id).value;
    if Accepts(t, step) {
      PutStaysValid(rows, After(t, step));
      AfterKeepsId(t, step);
      GetAfterPut(rows, After(t, step), id);
      GetAfterPut(rows, After(t, step), other);
    }
  }

  lemma AfterKeepsId(t: Ticket, step: Step)
    requires Accepts(t, step)
    ensures After(t, step).id == t.id
  {
  }

  /** A ticket is saved once more and then moved. */
  lemma SaveThenMove(rows: seq<Ticket>, t: Ticket, saved: Ticket, target: TicketStatus)
    requires ValidRows(rows) && Get(rows, t.id) == Some(t) && saved.id == t.id && saved.status == t.status
    requires !saved.metadata.abandoned
    ensures var (result, after) := Applied(Put(rows, saved), t.id, u => Transition(u, target));
            && (CanTransition(t.status, target) ==> result.Moved? && after == Put(rows, saved.(status := target)))
            && (!CanTransition(t.status, target) ==> result == InvalidTransition && after == Put(rows, saved))
  {
    GetAfterPut(rows, saved, t.id);
    PutTwice(rows, saved, saved.(status := target));
    assert Stored(saved.(status := target)) == saved.(status := target);
  }

  // ---------- Requests that record a decision and then move ----------

  /** A decision on the ticket is saved; then the move is requested, and the decision stays if it is refused. */
  function DecidedAndMoved(rows: seq<Ticket>, id: string, decided: Ticket -> Ticket, target: TicketStatus)
    : (Reply, seq<Ticket>)
  {
    match Get(rows, id)
    case None => (NotFound, rows)
    case Some(t) => Served(Put(rows, decided(t)), id, Step.Move(target))
  }

  function WithDecisions(t: Ticket, decisions: Decisions): Ticket {
    t.(metadata := t.metadata.(decisions := decisions))
  }

  function Accepted(t: Ticket): Ticket {
    WithDecisions(t, t.metadata.decisions.(accepted := true))
  }

  function ProductRejected(t: Ticket): Ticket {
    WithDecisions(t, t.metadata.decisions.(rejected := true, needsApproval := true))
  }

  /** Approval also settles the model: the ticket's own or, if it is no local one, the routed default. */
  function Approved(t: Ticket, model: string): Ticket {
    WithDecisions(t, t.metadata.decisions.(needsApproval := false)).(execution := t.execution.(assignedModel := model))
  }

  datatype Delivery = Delivered | DirtyWorkspace | DeliveryFailed

  /** Whether a provider of pull requests is configured; whether the ticket's last run and its audit were
      successful; and what opening the request comes to. */
  datatype PullRequests = PullRequests(integrated: bool, verified: bool, delivery: Delivery)

  /** The gate before acceptance. A ticket that was accepted once may pass it with any status. */
  function PullRequestGate(t: Ticket, pr: PullRequests): Reply {
    if !pr.integrated then Ok
    else if !pr.verified || (t.status != AwaitingAcceptance && !t.metadata.decisions.accepted) then Refused
    else
      match pr.delivery
      case Delivered => Ok
      case DirtyWorkspace => Refused
      case DeliveryFailed => BadRequest
  }

  /** The reply to an acceptance, and the table after it. */
  function Accepting(rows: seq<Ticket>, id: string, pr: PullRequests): (Reply, seq<Ticket>) {
    if Get(rows, id).None? then (NotFound, rows)
    else if PullRequestGate(Get(rows, id).value, pr) != Ok then (PullRequestGate(Get(rows, id).value, pr), rows)
    else DecidedAndMoved(rows, id, Accepted, Done)
  }

  /** Recording a decision and moving takes two lifecycle steps, of which the second one may be refused. */
  lemma DecisionTakesTwoSteps(rows: seq<Ticket>, id: string, decided: Ticket -> Ticket, target: TicketStatus)
    requires ValidRows(rows) && Get(rows, id).Some? && Accepts(Get(rows, id).value, Edit(decided(Get(rows, id).value)))
    ensures var t := Get(rows, id).value;
            var (reply, after) := DecidedAndMoved(rows, id, decided, target);
            && ValidRows(after)
            && Get(after, id) == Some(Final(t, [Edit(decided(t)), Step.Move(target)]))
            && (reply == Ok <==> CanTransition(t.status, target))
  {
    var t := Get(rows, id).value;
    var saved := Put(rows, decided(t));
    assert Served(rows, id, Edit(decided(t))) == (Ok, saved);
    ServedTakesTheStep(rows, id, Edit(decided(t)), id);
    ServedTakesTheStep(saved, id, Step.Move(target), id);
    var steps := [Edit(decided(t)), Step.Move(target)];
    assert steps[1..] == [Step.Move(target)] && [Step.Move(target)][1..] == [];
    assert Final(Next(t, steps[0]), [Step.Move(target)]) == Next(Next(t, steps[0]), Step.Move(target));
  }

  lemma RefusedMoveKeepsTheDecision(rows: seq<Ticket>, t: Ticket, decided: Ticket -> Ticket, target: TicketStatus)
    requires Get(rows, t.id) == Some(t) && decided(t).id == t.id
    requires DecidedAndMoved(rows, t.id, decided, target).0 != Ok
    ensures Get(DecidedAndMoved(rows, t.id, decided, target).1, t.id) == Some(Stored(decided(t)))
  {
    GetAfterPut(rows, decided(t), t.id);
  }

  lemma DecisionMovesIff(rows: seq<Ticket>, t: Ticket, decided: Ticket -> Ticket, target: TicketStatus)
    requires Get(rows, t.id) == Some(t) && decided(t).id == t.id && Stored(decided(t)).status == t.status
    ensures DecidedAndMoved(rows, t.id, decided, target).0 == Ok <==> CanTransition(t.status, target)
  {
    GetAfterPut(rows, decided(t), t.id);
  }

  /** What an acceptance that is not granted leaves: a marked ticket, if it got past the gate. */
  lemma RefusedAcceptanceLeaves(rows: seq<Ticket>, t: Ticket, pr: PullRequests)
    requires ValidRows(rows) && Get(rows, t.id) == Some(t) && Accepting(rows, t.id, pr).0 != Ok
    ensures Get(Accepting(rows, t.id, pr).1, t.id) == Some(if PullRequestGate(t, pr) == Ok then Accepted(t) else t)
    ensures PullRequestGate(t, pr) == Ok ==> t.status != AwaitingAcceptance
  {
    if PullRequestGate(t, pr) == Ok {
      RefusedMoveKeepsTheDecision(rows, t, Accepted, Done);
      assert Stored(Accepted(t)) == Accepted(t);
      DecisionMovesIff(rows, t, Accepted, Done);
    }
  }

  lemma MarkedIff(t: Ticket)
    ensures Accepted(t) != t <==> !t.metadata.decisions.accepted
  {
    if t.metadata.decisions.accepted {
      assert Accepted(t).metadata.decisions == t.metadata.decisions;
      assert Accepted(t).metadata == t.metadata;
    }
  }

  /** An acceptance that is not granted leaves its mark on the ticket exactly when no provider is configured
      and the ticket was neither awaiting acceptance nor accepted before. */
  lemma RefusedAcceptanceMarksIff(rows: seq<Ticket>, t: Ticket, pr: PullRequests)
    requires ValidRows(rows) && Get(rows, t.id) == Some(t) && Accepting(rows, t.id, pr).0 != Ok
    ensures Get(Accepting(rows, t.id, pr).1, t.id) != Some(t) <==>
      !pr.integrated && t.status != AwaitingAcceptance && !t.metadata.decisions.accepted
  {
    RefusedAcceptanceLeaves(rows, t, pr);
    MarkedIff(t);
  }

  /** Such a mark opens the gate: a verified ticket that was accepted in vain passes it whatever its status. */
  lemma MarkOpensTheGate(rows: seq<Ticket>, t: Ticket, pr: PullRequests, later: PullRequests)
    requires ValidRows(rows) && Get(rows, t.id) == Some(t) && Accepting(rows, t.id, pr).0 != Ok
    requires Get(Accepting(rows, t.id, pr).1, t.id) != Some(t)
    requires later.integrated && later.verified && later.delivery == Delivered
    ensures PullRequestGate(t, later) == Refused
    ensures var marked := Get(Accepting(rows, t.id, pr).1, t.id);
            marked.Some? && marked.value.status == t.status && PullRequestGate(marked.value, later) == Ok
  {
    RefusedAcceptanceLeaves(rows, t, pr);
    RefusedAcceptanceMarksIff(rows, t, pr);
  }

  /** The move goes by the ticket's own status, and what is stored is the decided ticket. */
  lemma DecidedThenMoved(rows: seq<Ticket>, t: Ticket, decided: Ticket -> Ticket, target: TicketStatus)
    requires ValidRows(rows) && Get(rows, t.id) == Some(t)
    requires decided(t).id == t.id && decided(t).status == t.status
    requires decided(t).metadata.abandoned == t.metadata.abandoned
    ensures DecidedAndMoved(rows, t.id, decided, target) ==
      if CanTransition(t.status, target) then (Ok, Put(rows, decided(t).(status := target)))
      else (Refused, Put(rows, decided(t)))
  {
    GetAfterPut(rows, decided(t), t.id);
    assert t.metadata.abandoned ==> t.status == Abandoned;
    if CanTransition(t.status, target) {
      PutTwice(rows, decided(t), decided(t).(status := target));
    }
  }

  class TicketEndpoints {
    const repository: TicketRepository
    const stateService: TicketStateService

    constructor (repository: TicketRepository, stateService: TicketStateService)
      ensures this.repository == repository && this.stateService == stateService
    {
      this.repository := repository;
      this.stateService := stateService;
    }

    ghost predicate Valid()
      reads this, repository
    {
      stateService.repository == repository && ValidRows(repository.rows)
    }

    method MoveTicket(id: string, target: TicketStatus) returns (reply: Reply)
      requires Valid()
      modifies repository
      ensures (reply, repository.rows) == Served(old(repository.rows), id, Step.Move(target))
      ensures var rows := old(repository.rows);
              match Get(rows, id)
              case None => reply == NotFound && repository.rows == rows
              case Some(t) =>
                if target in LegalTransitions(t.status)
                then reply == Ok && repository.rows == Put(rows, t.(status := target))
                else reply == Refused && repository.rows == rows
    {
      var result := stateService.Move(id, target);
      reply := match result
        case TicketNotFound => NotFound
        case InvalidTransition => Refused
        case _ => Ok;
    }

    /** The pull request, if a provider is configured; then who accepted is saved; then the ticket moves to done. */
    method AcceptTicket(id: string, pr: PullRequests) returns (reply: Reply)
      requires Valid()
      modifies repository
      ensures (reply, repository.rows) == Accepting(old(repository.rows), id, pr)
      ensures var rows := old(repository.rows);
              match Get(rows, id)
              case None => reply == NotFound && repository.rows == rows
              case Some(t) =>
                var marked := t.(metadata := t.metadata.(decisions := t.metadata.decisions.(accepted := true)));
                if pr.integrated && !(pr.verified && (t.status == AwaitingAcceptance || t.metadata.decisions.accepted))
                then reply == Refused && repository.rows == rows
                else if pr.integrated && pr.delivery == DirtyWorkspace
                then reply == Refused && repository.rows == rows
                else if pr.integrated && pr.delivery == DeliveryFailed
                then reply == BadRequest && repository.rows == rows
                else if t.status == AwaitingAcceptance
                then reply == Ok && repository.rows == Put(rows, marked.(status := Done))
                else reply == Refused && repository.rows == Put(rows, marked)
    {
      var found := Get(repository.rows, id);
      if found.None? {
        return NotFound;
      }
      var gate := PullRequestGate(found.value, pr);
      if gate != Ok {
        return gate;
      }
      DecidedThenMoved(repository.rows, found.value, Accepted, Done);
      reply := DecideAndMove(id, found.value, Accepted, Done);
    }

    method RejectTicket(id: string) returns (reply: Reply)
      requires Valid()
      modifies repository
      ensures (reply, repository.rows) == DecidedAndMoved(old(repository.rows), id, ProductRejected, Backlog)
      ensures var rows := old(repository.rows);
              match Get(rows, id)
              case None => reply == NotFound && repository.rows == rows
              case Some(t) =>
                var decisions := t.metadata.decisions.(rejected := true, needsApproval := true);
                var marked := t.(metadata := t.metadata.(decisions := decisions));
                if t.status == Review || t.status == AwaitingAcceptance
                then reply == Ok && repository.rows == Put(rows, marked.(status := Backlog))
                else reply == Refused && repository.rows == Put(rows, marked)
    {
      var found := Get(repository.rows, id);
      if found.None? {
        return NotFound;
      }
      DecidedThenMoved(repository.rows, found.value, ProductRejected, Backlog);
      reply := DecideAndMove(id, found.value, ProductRejected, Backlog);
    }

    method ApproveTicket(id: string, model: string) returns (reply: Reply)
      requires Valid()
      modifies repository
      ensures (reply, repository.rows) == DecidedAndMoved(old(repository.rows), id, t => Approved(t, model), Ready)
      ensures var rows := old(repository.rows);
              match Get(rows, id)
              case None => reply == NotFound && repository.rows == rows
              case Some(t) =>
                var decisions := t.metadata.decisions.(needsApproval := false);
                var marked := t.(metadata := t.metadata.(decisions := decisions),
                                 execution := t.execution.(assignedModel := model));
                if t.status == Backlog
                then reply == Ok && repository.rows == Put(rows, marked.(status := Ready))
                else reply == Refused && repository.rows == Put(rows, marked)
    {
      var found := Get(repository.rows, id);
      if found.None? {
        return NotFound;
      }
      DecidedThenMoved(repository.rows, found.value, t => Approved(t, model), Ready);
      reply := DecideAndMove(id, found.value, t => Approved(t, model), Ready);
    }

    method DecideAndMove(id: string, ticket: Ticket, decided: Ticket -> Ticket, target: TicketStatus)
      returns (reply: Reply)
      requires Valid() && Get(repository.rows, id) == Some(ticket) && decided(ticket).id == id
      modifies repository
      ensures (reply, repository.rows) == DecidedAndMoved(old(repository.rows), id, decided, target)
    {
      PutStaysValid(repository.rows, decided(ticket));
      var _ := repository.Save(decided(ticket));
      reply := MoveTicket(id, target);
    }

    /** committed tells whether git accepted the pending diff on the ticket's branch. */
    method ApproveDiff(id: string, committed: bool) returns (reply: Reply)
      requires Valid()
      modifies repository
      ensures (reply, repository.rows) == Served(old(repository.rows), id, Step.ApproveDiff(committed))
      ensures var rows := old(repository.rows);
              match Get(rows, id)
              case None => reply == NotFound && repository.rows == rows
              case Some(t) =>
                var recorded := t.metadata.(git := t.metadata.git.(branch := true, base := true));
                if t.status == DiffPending && committed
                then reply == Ok && repository.rows == Put(rows, t.(status := Review, metadata := recorded))
                else reply == (if t.status == DiffPending then BadRequest else Refused) && repository.rows == rows
    {
      var found := Get(repository.rows, id);
      if found.None? {
        return NotFound;
      }
      var ticket := found.value;
      if ticket.status != DiffPending {
        return Refused;
      }
      if !committed {
        return BadRequest;
      }
      var approved := WithGit(ticket, ticket.metadata.git.(branch := true, base := true));
      SaveThenMove(repository.rows, ticket, approved, Review);
      var _ := repository.Save(approved);
      var _ := stateService.Move(id, Review);
      return Ok;
    }

    method RejectDiff(id: string) returns (reply: Reply)
      requires Valid()
      modifies repository
      ensures (reply, repository.rows) == Served(old(repository.rows), id, Step.RejectDiff)
      ensures var rows := old(repository.rows);
              match Get(rows, id)
              case None => reply == NotFound && repository.rows == rows
              case Some(t) =>
                var cleared := t.execution.(attempts := 0);
                if t.status == DiffPending
                then reply == Ok && repository.rows == Put(rows, t.(status := InProgress, execution := cleared))
                else reply == Refused && repository.rows == rows
    {
      var found := Get(repository.rows, id);
      if found.None? {
        return NotFound;
      }
      var ticket := found.value;
      if ticket.status != DiffPending {
        return Refused;
      }
      SaveThenMove(repository.rows, ticket, WithoutAttempts(ticket), InProgress);
      var _ := repository.Save(WithoutAttempts(ticket));
      var _ := stateService.Move(id, InProgress);
      return Ok;
    }

    /** The audit is saved first; its verdict decides where the ticket goes. */
    method ReviewTicket(id: string, approved: bool) returns (reply: Reply)
      requires Valid()
      modifies repository
      ensures (reply, repository.rows) == Served(old(repository.rows), id, Step.ReviewVerdict(approved))
      ensures var rows := old(repository.rows);
              match Get(rows, id)
              case None => reply == NotFound && repository.rows == rows
              case Some(t) =>
                if t.status == Review
                then reply == Ok
                     && repository.rows == Put(rows, t.(status := if approved then AwaitingAcceptance else Backlog))
                else reply == Refused && repository.rows == rows
    {
      var found := Get(repository.rows, id);
      if found.None? {
        return NotFound;
      }
      var ticket := found.value;
      if ticket.status != Review {
        return Refused;
      }
      var target := if approved then AwaitingAcceptance else Backlog;
      SaveThenMove(repository.rows, ticket, ticket, target);
      var _ := repository.Save(ticket);
      var _ := stateService.Move(id, target);
      return Ok;
    }

    method RetryTicket(id: string) returns (reply: Reply)
      requires Valid()
      modifies repository
      ensures (reply, repository.rows) == Served(old(repository.rows), id, Step.Retry)
      ensures var rows := old(repository.rows);
              match Get(rows, id)
              case None => reply == NotFound && repository.rows == rows
              case Some(t) =>
                var cleared := t.execution.(attempts := 0);
                if t.status == Blocked || t.status == Backlog
                then reply == Ok && repository.rows == Put(rows, t.(status := Ready, execution := cleared))
                else reply == Refused && repository.rows == rows
    {
      var found := Get(repository.rows, id);
      if found.None? {
        return NotFound;
      }
      if found.value.status !in {Blocked, Backlog} {
        return Refused;
      }
      var _ := repository.Save(WithoutAttempts(found.value).(status := Ready));
      return Ok;
    }

    method EscalateTicket(id: string) returns (reply: Reply)
      requires Valid()
      modifies repository
      ensures (reply, repository.rows) == Served(old(repository.rows), id, Step.Escalate)
      ensures var rows := old(repository.rows);
              match Get(rows, id)
              case None => reply == NotFound && repository.rows == rows
              case Some(t) => reply == Ok && repository.rows == Put(rows, t.(status := Blocked))
    {
      var found := Get(repository.rows, id);
      if found.None? {
        return NotFound;
      }
      var _ := repository.Save(found.value.(status := Blocked));
      return Ok;
    }

    /** A registered execution is asked to stop, and will save the ticket itself. */
    method CancelTicket(id: string, registered: bool) returns (reply: Reply)
      requires Valid()
      modifies repository
      ensures registered ==> repository.rows == old(repository.rows)
      ensures !registered ==> (reply, repository.rows) == Served(old(repository.rows), id, Step.Cancel)
      ensures var rows := old(repository.rows);
              match Get(rows, id)
              case None => reply == NotFound && repository.rows == rows
              case Some(t) =>
                var cleared := t.execution.(attempts := 0);
                if registered then reply == Ok && repository.rows == rows
                else if t.status == InProgress || t.status == Testing
                then reply == Ok && repository.rows == Put(rows, t.(status := Ready, execution := cleared))
                else reply == Refused && repository.rows == rows
    {
      var found := Get(repository.rows, id);
      if found.None? {
        return NotFound;
      }
      if registered {
        return Ok;
      }
      if found.value.status !in {InProgress, Testing} {
        return Refused;
      }
      var _ := repository.Save(WithoutAttempts(found.value).(status := Ready));
      return Ok;
    }

    method RerunTicket(id: string, registered: bool) returns (reply: Reply)
      requires Valid()
      modifies repository
      ensures registered ==> reply != Ok && repository.rows == old(repository.rows)
      ensures !registered ==> (reply, repository.rows) == Served(old(repository.rows), id, Step.Rerun)
      ensures var rows := old(repository.rows);
              match Get(rows, id)
              case None => reply == NotFound && repository.rows == rows
              case Some(t) =>
                var cleared := t.execution.(attempts := 0);
                if registered then reply == Refused && repository.rows == rows
                else reply == Ok && repository.rows == Put(rows, t.(status := Ready, execution := cleared))
    {
      var found := Get(repository.rows, id);
      if found.None? {
        return NotFound;
      }
      if registered {
        return Refused;
      }
      var _ := repository.Save(WithoutAttempts(found.value).(status := Ready));
      return Ok;
    }

    method AbandonTicket(id: string) returns (reply: Reply)
      requires Valid()
      modifies repository
      ensures (reply, repository.rows) == Served(old(repository.rows), id, Step.Abandon)
      ensures var rows := old(repository.rows);
              match Get(rows, id)
              case None => reply == NotFound && repository.rows == rows
              case Some(t) =>
                var decisions := t.metadata.decisions.(needsApproval := false);
                var marked := t.metadata.(abandoned := true, decisions := decisions);
                if t.status !in {InProgress, Testing, Done, Abandoned, Split}
                then reply == Ok && repository.rows == Put(rows, t.(status := Abandoned, metadata := marked))
                else reply == Refused && repository.rows == rows
    {
      var found := Get(repository.rows, id);
      if found.None? {
        return NotFound;
      }
      var ticket := found.value;
      if ticket.status in {InProgress, Testing} || ticket.status in {Done, Abandoned, Split} {
        return Refused;
      }
      var decisions := ticket.metadata.decisions.(needsApproval := false);
      var metadata := ticket.metadata.(abandoned := true, decisions := decisions);
      var _ := repository.Save(ticket.(status := Abandoned, metadata := metadata));
      return Ok;
    }

    /** merged tells whether git merged the branch. Nothing is asked of the status. */
    method MergeTicketBranch(id: string, merged: bool) returns (reply: Reply)
      requires Valid()
      modifies repository
      ensures (reply, repository.rows) == Served(old(repository.rows), id, Step.Merge(merged))
      ensures var rows := old(repository.rows);
              match Get(rows, id)
              case None => reply == NotFound && repository.rows == rows
              case Some(t) =>
                var recorded := t.metadata.(git := t.metadata.git.(mergedTo := true, mergeCommit := true));
                if t.metadata.git.branch && t.metadata.git.base && merged
                then reply == Ok && repository.rows == Put(rows, t.(metadata := recorded))
                else reply == BadRequest && repository.rows == rows
    {
      var found := Get(repository.rows, id);
      if found.None? {
        return NotFound;
      }
      var git := found.value.metadata.git;
      if !git.branch || !git.base || !merged {
        return BadRequest;
      }
      var _ := repository.Save(WithGit(found.value, git.(mergedTo := true, mergeCommit := true)));
      return Ok;
    }

    method RevertTicketMerge(id: string, reverted: bool) returns (reply: Reply)
      requires Valid()
      modifies repository
      ensures (reply, repository.rows) == Served(old(repository.rows), id, Step.Revert(reverted))
      ensures var rows := old(repository.rows);
              match Get(rows, id)
              case None => reply == NotFound && repository.rows == rows
              case Some(t) =>
                if (t.metadata.git.mergedTo || t.metadata.git.base) && t.metadata.git.mergeCommit && reverted
                then reply == Ok && repository.rows == Put(rows, t.(status := AwaitingAcceptance))
                else reply == BadRequest && repository.rows == rows
    {
      var found := Get(repository.rows, id);
      if found.None? {
        return NotFound;
      }
      var git := found.value.metadata.git;
      if !(git.mergedTo || git.base) || !git.mergeCommit || !reverted {
        return BadRequest;
      }
      var _ := repository.Save(found.value.(status := AwaitingAcceptance));
      return Ok;
    }
  }
}
