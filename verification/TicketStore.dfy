/** The ticket repository: one project's rows, read and written by its methods. */
module TicketStore {
  import opened Basics
  import opened Tickets
  import opened Leases

  class TicketRepository {
    /** All rows of the project, ordered by created_at and then id. */
    var rows: seq<Ticket>

    constructor (rows: seq<Ticket>)
      ensures this.rows == rows
    {
      this.rows := rows;
    }

    /** Fails, changing nothing, when no row has the ticket's id. */
    method Save(ticket: Ticket) returns (saved: Option<Ticket>)
      modifies this
      ensures rows == Put(old(rows), ticket)
      ensures |rows| == |old(rows)| && forall i :: 0 <= i < |rows| ==>
                rows[i] == if old(rows)[i].id == ticket.id then Stored(ticket) else old(rows)[i]
      ensures saved == if Get(old(rows), ticket.id).Some? then Some(Stored(ticket)) else None
    {
      var present := Get(rows, ticket.id);
      rows := Put(rows, ticket);
      saved := if present.Some? then Some(Stored(ticket)) else None;
    }

    method ListByStatus(status: TicketStatus) returns (tickets: seq<Ticket>)
      ensures tickets == WithStatus(rows, status)
    {
      tickets := WithStatus(rows, status);
    }

    /** Gives the worker a lease on the oldest ready ticket that it may work on, in one transaction. */
    method ClaimNextReadyTicket(workerId: string, ttlSec: int, now: int) returns (claim: TicketLeaseClaim)
      requires ValidRows(rows)
      modifies this
      ensures (claim, rows) == Claim(old(rows), workerId, now, ttlSec)
      ensures ClaimsTheFirst(old(rows), workerId, now, ttlSec, claim)
      ensures rows == if claim.ticket.Some? then Put(old(rows), claim.ticket.value) else old(rows)
      ensures ValidRows(rows)
    {
      ClaimIsByTheColumns(rows, workerId, now, ttlSec);
      claim := ClaimFirst(workerId, ttlSec, now);
    }

    method ClaimFirst(workerId: string, ttlSec: int, now: int) returns (claim: TicketLeaseClaim)
      requires ValidRows(rows)
      modifies this
      ensures (claim, rows) == Claim(old(rows), workerId, now, ttlSec)
      ensures ValidRows(rows)
    {
      var tickets := rows;
      var active := ActiveLeases(tickets, now);
      var waitingDependencies: seq<string> := [];
      var conflictIds: seq<string> := [];
      var k := 0;
      while k < |tickets|
        invariant 0 <= k <= |tickets|
        invariant rows == tickets
        invariant FirstClaimable(tickets, workerId, now, 0) == FirstClaimable(tickets, workerId, now, k)
        invariant conflictIds == BlockedIds(tickets, workerId, now, k)
        invariant waitingDependencies != [] <==> SomeoneWaits(tickets, workerId, now, k)
      {
        var ticket := tickets[k];
        k := k + 1;
        if ticket.status != Ready || HeldByAnother(ticket, workerId, now) {
          continue;
        }
        if !DependenciesSatisfied(tickets, ticket) {
          waitingDependencies := waitingDependencies + [ticket.id];
          continue;
        }
        var conflicts := OverlappingTicketIds(ticket, active);
        OverlapMeansConflict(tickets, ticket, now);
        if conflicts != [] {
          conflictIds := conflictIds + [ticket.id];
          continue;
        }
        var updated := WithLease(ticket, workerId, Expiry(now, ttlSec));
        PutStaysValid(tickets, updated);
        rows := Put(tickets, updated);
        return TicketLeaseClaim(Some(updated), NoReason, []);
      }
      if conflictIds != [] {
        return TicketLeaseClaim(None, TargetFileConflict, conflictIds);
      }
      if waitingDependencies != [] {
        return TicketLeaseClaim(None, DependenciesPending, []);
      }
      return TicketLeaseClaim(None, NoReason, []);
    }

    method LeaseTicket(ticketId: string, workerId: string, ttlSec: int, now: int) returns (leased: Option<Ticket>)
      modifies this
      ensures rows == LeaseOne(old(rows), ticketId, workerId, now, ttlSec)
      ensures leased.Some?
        <==> Get(old(rows), ticketId).Some? && Get(old(rows), ticketId).value.status == Ready
             && Unheld(Get(old(rows), ticketId).value, workerId, now)
      ensures leased.Some? ==> LeasedFor(Get(old(rows), ticketId).value, leased.value, workerId, now, ttlSec)
      ensures rows == if leased.Some? then Put(old(rows), leased.value) else old(rows)
    {
      var found := Get(rows, ticketId);
      if found.None? {
        return None;
      }
      var ticket := found.value;
      if ticket.status != Ready {
        return None;
      }
      if LeaseActive(ticket, now) && ticket.metadata.lease.value.workerId != workerId {
        return None;
      }
      var updated := WithLease(ticket, workerId, Expiry(now, ttlSec));
      rows := Put(rows, updated);
      return Some(updated);
    }

    method RenewLease(ticketId: string, workerId: string, ttlSec: int, now: int) returns (renewed: bool)
      modifies this
      ensures rows == Renew(old(rows), ticketId, workerId, now, ttlSec)
      ensures renewed <==> var t := Get(old(rows), ticketId);
                           t.Some? && t.value.metadata.lease.Some? && t.value.metadata.lease.value.workerId == workerId
      ensures if renewed then exists t :: LeasedFor(Get(old(rows), ticketId).value, t, workerId, now, ttlSec)
                                          && rows == Put(old(rows), t)
              else rows == old(rows)
    {
      var found := Get(rows, ticketId);
      if found.None? || found.value.metadata.lease.None? || found.value.metadata.lease.value.workerId != workerId {
        return false;
      }
      var _ := Save(WithLease(found.value, workerId, Expiry(now, ttlSec)));
      return true;
    }

    method ReleaseLease(ticketId: string, workerId: Option<string>) returns (released: bool)
      modifies this
      ensures rows == Release(old(rows), ticketId, workerId)
      ensures released <==> var t := Get(old(rows), ticketId);
                            && t.Some?
                            && (workerId.Some? ==> t.value.metadata.lease.Some?
                                                   && t.value.metadata.lease.value.workerId == workerId.value)
      ensures rows == if !released then old(rows)
                      else var t := Get(old(rows), ticketId).value;
                           Put(old(rows), t.(metadata := t.metadata.(lease := None)))
    {
      var found := Get(rows, ticketId);
      if found.None? {
        return false;
      }
      var lease := found.value.metadata.lease;
      if workerId.Some? && (lease.None? || lease.value.workerId != workerId.value) {
        return false;
      }
      var _ := Save(WithoutLease(found.value));
      return true;
    }
  }

  /** SELECT ... WHERE status = ? in row order */
  function WithStatus(rows: seq<Ticket>, status: TicketStatus): (r: seq<Ticket>)
    ensures forall t :: t in r <==> t in rows && t.status == status
  {
    if rows == [] then []
    else (if rows[0].status == status then [rows[0]] else []) + WithStatus(rows[1..], status)
  }

  function ActiveLeases(rows: seq<Ticket>, now: int): (r: seq<Ticket>)
    ensures forall t :: t in r <==> t in rows && LeaseActive(t, now)
  {
    if rows == [] then []
    else (if LeaseActive(rows[0], now) then [rows[0]] else []) + ActiveLeases(rows[1..], now)
  }

  /** Ids of the other active tickets that share a target file. */
  function OverlappingTicketIds(ticket: Ticket, active: seq<Ticket>): (ids: seq<string>)
    ensures ids != [] <==> exists a :: a in active && a.id != ticket.id && SharesFiles(ticket, a)
  {
    if active == [] then []
    else
      (if active[0].id != ticket.id && SharesFiles(ticket, active[0]) then [active[0].id] else [])
      + OverlappingTicketIds(ticket, active[1..])
  }

  lemma OverlapMeansConflict(rows: seq<Ticket>, ticket: Ticket, now: int)
    ensures OverlappingTicketIds(ticket, ActiveLeases(rows, now)) != [] <==> Conflicted(rows, ticket, now)
  {
    var active := ActiveLeases(rows, now);
    if Conflicted(rows, ticket, now) {
      var j :| 0 <= j < |rows| && LeaseActive(rows[j], now) && rows[j].id != ticket.id && SharesFiles(ticket, rows[j]);
      assert rows[j] in active;
    }
    if exists a :: a in active && a.id != ticket.id && SharesFiles(ticket, a) {
      var a :| a in active && a.id != ticket.id && SharesFiles(ticket, a);
      var j :| 0 <= j < |rows| && rows[j] == a;
    }
  }
}
