/** Repairing tickets that a crashed worker left in progress or in testing. */
module CrashRecovery {
  import opened Basics
  import opened Tickets
  import opened TicketStore

  /** The ticket was noted by an earlier recovery; the note is never removed. */
  predicate AlreadyNoted(t: Ticket) {
    t.metadata.orphanedFrom == Some(InProgress) || t.metadata.orphanReason
  }

  /** Not registered as executing, and either in testing or in progress without a note. */
  predicate Orphaned(t: Ticket, registered: set<string>) {
    && t.id !in registered
    && (t.status == Testing || (t.status == InProgress && !AlreadyNoted(t)))
  }

  /** Back to (or still) in progress, with the recovery recorded. */
  function Recovered(t: Ticket): Ticket {
    t.(status := InProgress,
       metadata := t.metadata.(orphanedFrom := Some(t.status), orphanReason := true))
  }

  function Repaired(t: Ticket, registered: set<string>): Ticket {
    if Orphaned(t, registered) then Stored(Recovered(t)) else t
  }

  function RepairedRows(rows: seq<Ticket>, registered: set<string>): (r: seq<Ticket>)
    ensures |r| == |rows| && forall i :: 0 <= i < |rows| ==> r[i] == Repaired(rows[i], registered)
  {
    seq(|rows|, i requires 0 <= i < |rows| => Repaired(rows[i], registered))
  }

  /** Ids of the orphans among these tickets, in order. */
  function OrphanIds(tickets: seq<Ticket>, registered: set<string>): seq<string> {
    FirstOrphanIds(tickets, registered, |tickets|)
  }

  function FirstOrphanIds(tickets: seq<Ticket>, registered: set<string>, k: nat): seq<string>
    requires k <= |tickets|
  {
    if k == 0 then []
    else
      var ids := FirstOrphanIds(tickets, registered, k - 1);
      if Orphaned(tickets[k - 1], registered) then ids + [tickets[k - 1].id] else ids
  }

  /** The table holds a ticket of this id in testing. */
  predicate IsTesting(rows: seq<Ticket>, id: string) {
    exists i :: 0 <= i < |rows| && rows[i].id == id && rows[i].status == Testing
  }

  /** The table holds a ticket of this id in progress, without a note of an earlier recovery. */
  predicate IsUnnoted(rows: seq<Ticket>, id: string) {
    exists i :: 0 <= i < |rows| && rows[i].id == id && rows[i].status == InProgress
                && rows[i].metadata.orphanedFrom != Some(InProgress) && !rows[i].metadata.orphanReason
  }

  lemma {:induction false} OrphanIdsHold(tickets: seq<Ticket>, registered: set<string>, k: nat, id: string)
    requires k <= |tickets|
    ensures id in FirstOrphanIds(tickets, registered, k)
      <==> exists j :: 0 <= j < k && tickets[j].id == id && Orphaned(tickets[j], registered)
  {
    if k > 0 {
      OrphanIdsHold(tickets, registered, k - 1, id);
    }
  }

  lemma IdsOfOrphans(rows: seq<Ticket>, registered: set<string>)
    ensures forall id :: id in OrphanIds(WithStatus(rows, Testing), registered)
                         <==> id !in registered && IsTesting(rows, id)
    ensures forall id :: id in OrphanIds(WithStatus(rows, InProgress), registered)
                         <==> id !in registered && IsUnnoted(rows, id)
  {
    forall id
      ensures id in OrphanIds(WithStatus(rows, Testing), registered) <==> id !in registered && IsTesting(rows, id)
      ensures id in OrphanIds(WithStatus(rows, InProgress), registered) <==> id !in registered && IsUnnoted(rows, id)
    {
      TestingOrphan(rows, registered, id);
      UnnotedOrphan(rows, registered, id);
    }
  }

  lemma TestingOrphan(rows: seq<Ticket>, registered: set<string>, id: string)
    ensures id in OrphanIds(WithStatus(rows, Testing), registered) <==> id !in registered && IsTesting(rows, id)
  {
    var tickets := WithStatus(rows, Testing);
    OrphanIdsHold(tickets, registered, |tickets|, id);
    if id in OrphanIds(tickets, registered) {
      var j :| 0 <= j < |tickets| && tickets[j].id == id && Orphaned(tickets[j], registered);
      assert tickets[j] in rows;
    }
    if id !in registered && IsTesting(rows, id) {
      var i :| 0 <= i < |rows| && rows[i].id == id && rows[i].status == Testing;
      assert rows[i] in tickets;
    }
  }

  lemma UnnotedOrphan(rows: seq<Ticket>, registered: set<string>, id: string)
    ensures id in OrphanIds(WithStatus(rows, InProgress), registered) <==> id !in registered && IsUnnoted(rows, id)
  {
    var tickets := WithStatus(rows, InProgress);
    OrphanIdsHold(tickets, registered, |tickets|, id);
    if id in OrphanIds(tickets, registered) {
      var j :| 0 <= j < |tickets| && tickets[j].id == id && Orphaned(tickets[j], registered);
      assert tickets[j] in rows;
    }
    if id !in registered && IsUnnoted(rows, id) {
      var i :| 0 <= i < |rows| && rows[i].id == id && rows[i].status == InProgress
               && rows[i].metadata.orphanedFrom != Some(InProgress) && !rows[i].metadata.orphanReason;
      assert rows[i] in tickets;
    }
  }

  class CrashRecoveryService {
    const repository: TicketRepository

    constructor (repository: TicketRepository)
      ensures this.repository == repository
    {
      this.repository := repository;
    }

    /** First the tickets in progress, then those in testing: so one that is recovered is not noted as well. */
    method RecoverOrphanedExecution(registered: set<string>) returns (recovered: seq<string>, noted: seq<string>)
      requires ValidRows(repository.rows)
      modifies repository
      ensures repository.rows == RepairedRows(old(repository.rows), registered)
      ensures noted == OrphanIds(WithStatus(old(repository.rows), InProgress), registered)
      ensures recovered == OrphanIds(WithStatus(old(repository.rows), Testing), registered)
      ensures |repository.rows| == |old(repository.rows)| && forall i :: 0 <= i < |repository.rows| ==>
                var t := old(repository.rows)[i];
                var noted := t.metadata.orphanedFrom == Some(InProgress) || t.metadata.orphanReason;
                repository.rows[i] ==
                  if t.id !in registered && (t.status == Testing || (t.status == InProgress && !noted))
                  then t.(status := InProgress,
                          metadata := t.metadata.(orphanedFrom := Some(t.status), orphanReason := true))
                  else t
      ensures forall id :: id in recovered <==> id !in registered && IsTesting(old(repository.rows), id)
      ensures forall id :: id in noted <==> id !in registered && IsUnnoted(old(repository.rows), id)
    {
      IdsOfOrphans(repository.rows, registered);
      ghost var original := repository.rows;
      noted := RepairStatus(InProgress, registered);
      OtherStatusUntouched(original, repository.rows, registered);
      RepairStaysValid(original, repository.rows, InProgress, registered);
      recovered := RepairStatus(Testing, registered);
      TwoPassesRepairAll(original, repository.rows, registered);
    }

    method RepairStatus(status: TicketStatus, registered: set<string>) returns (repaired: seq<string>)
      requires ValidRows(repository.rows) && status in {InProgress, Testing}
      modifies repository
      ensures repository.rows == PassedOver(old(repository.rows), status, registered)
      ensures repaired == OrphanIds(WithStatus(old(repository.rows), status), registered)
    {
      OnePassIsExact(repository.rows, status, registered);
      var tickets := repository.ListByStatus(status);
      repaired := RepairTickets(tickets, registered);
    }

    method RepairTickets(tickets: seq<Ticket>, registered: set<string>) returns (repaired: seq<string>)
      modifies repository
      ensures repository.rows == RepairedFirst(old(repository.rows), tickets, registered, |tickets|)
      ensures repaired == OrphanIds(tickets, registered)
    {
      repaired := [];
      var k := 0;
      while k < |tickets|
        invariant 0 <= k <= |tickets|
        invariant repository.rows == RepairedFirst(old(repository.rows), tickets, registered, k)
        invariant repaired == FirstOrphanIds(tickets, registered, k)
      {
        var ticket := tickets[k];
        if Orphaned(ticket, registered) {
          var _ := repository.Save(Recovered(ticket));
          repaired := repaired + [ticket.id];
        }
        k := k + 1;
      }
    }
  }

  // ---------- One pass ----------

  function PassedOver(rows: seq<Ticket>, status: TicketStatus, registered: set<string>): (r: seq<Ticket>)
    ensures |r| == |rows|
    ensures forall i :: 0 <= i < |rows| ==>
              r[i] == if rows[i].status == status then Repaired(rows[i], registered) else rows[i]
  {
    seq(|rows|, i requires 0 <= i < |rows| =>
      if rows[i].status == status then Repaired(rows[i], registered) else rows[i])
  }

  /** The rows after the orphans among the first k tickets have been saved. */
  function RepairedFirst(rows: seq<Ticket>, tickets: seq<Ticket>, registered: set<string>, k: nat): (r: seq<Ticket>)
    requires k <= |tickets|
    ensures |r| == |rows|
  {
    if k == 0 then rows
    else
      var r := RepairedFirst(rows, tickets, registered, k - 1);
      if Orphaned(tickets[k - 1], registered) then Put(r, Recovered(tickets[k - 1])) else r
  }

  predicate Handled(tickets: seq<Ticket>, k: nat, t: Ticket)
    requires k <= |tickets|
  {
    exists j :: 0 <= j < k && tickets[j] == t
  }

  /** Saving by id repairs exactly the listed tickets' rows. */
  lemma {:induction false} RepairsExactly(rows: seq<Ticket>, tickets: seq<Ticket>, registered: set<string>, k: nat)
    requires DistinctIds(rows) && k <= |tickets| && forall t :: t in tickets ==> t in rows
    ensures forall i :: 0 <= i < |rows| ==>
      RepairedFirst(rows, tickets, registered, k)[i] ==
        if Handled(tickets, k, rows[i]) then Repaired(rows[i], registered) else rows[i]
  {
    if k > 0 {
      RepairsExactly(rows, tickets, registered, k - 1);
      var t := tickets[k - 1];
      assert t in rows;
      var j :| 0 <= j < |rows| && rows[j] == t;
      var before, after := RepairedFirst(rows, tickets, registered, k - 1), RepairedFirst(rows, tickets, registered, k);
      forall i | 0 <= i < |rows|
        ensures after[i] == if Handled(tickets, k, rows[i]) then Repaired(rows[i], registered) else rows[i]
      {
        assert Handled(tickets, k, rows[i]) <==> Handled(tickets, k - 1, rows[i]) || rows[i] == t;
        assert before[i].id == rows[i].id;
      }
    }
  }

  /** Saving the listed orphans one by one repairs every row of that status and no other. */
  lemma OnePassIsExact(rows: seq<Ticket>, status: TicketStatus, registered: set<string>)
    requires DistinctIds(rows)
    ensures var tickets := WithStatus(rows, status);
            RepairedFirst(rows, tickets, registered, |tickets|) == PassedOver(rows, status, registered)
  {
    var tickets := WithStatus(rows, status);
    RepairsExactly(rows, tickets, registered, |tickets|);
    forall i | 0 <= i < |rows| ensures Handled(tickets, |tickets|, rows[i]) <==> rows[i].status == status {
      assert rows[i] in tickets <==> rows[i].status == status;
    }
  }

  lemma {:induction false} SameStatusSameList(rows: seq<Ticket>, others: seq<Ticket>, status: TicketStatus)
    requires |rows| == |others|
    requires forall i :: 0 <= i < |rows| ==> (rows[i].status == status <==> others[i].status == status)
    requires forall i :: 0 <= i < |rows| && rows[i].status == status ==> rows[i] == others[i]
    ensures WithStatus(rows, status) == WithStatus(others, status)
  {
    if rows != [] {
      assert rows[0].status == status <==> others[0].status == status;
      SameStatusSameList(rows[1..], others[1..], status);
    }
  }

  lemma OtherStatusUntouched(original: seq<Ticket>, rows: seq<Ticket>, registered: set<string>)
    requires (forall i :: 0 <= i < |original| ==> Stored(original[i]) == original[i])
    requires rows == PassedOver(original, InProgress, registered)
    ensures WithStatus(rows, Testing) == WithStatus(original, Testing)
  {
    SameStatusSameList(original, rows, Testing);
  }

  lemma RepairStaysValid(original: seq<Ticket>, rows: seq<Ticket>, status: TicketStatus, registered: set<string>)
    requires ValidRows(original) && rows == PassedOver(original, status, registered)
    ensures ValidRows(rows)
  {
  }

  lemma TwoPassesRepairAll(original: seq<Ticket>, rows: seq<Ticket>, registered: set<string>)
    requires forall i :: 0 <= i < |original| ==> Stored(original[i]) == original[i]
    requires rows == PassedOver(PassedOver(original, InProgress, registered), Testing, registered)
    ensures rows == RepairedRows(original, registered)
  {
  }

  // ---------- The fixpoint ----------

  /** Afterwards no orphan is left; a registered ticket's record is untouched; and repairing again, with the
      same registry, changes nothing and finds nothing. */
  lemma RecoveryIsAFixpoint(rows: seq<Ticket>, registered: set<string>)
    requires ValidRows(rows)
    ensures var after := RepairedRows(rows, registered);
            && ValidRows(after)
            && (forall i :: 0 <= i < |rows| ==> after[i].status == Testing ==> after[i].id in registered)
            && (forall i :: 0 <= i < |rows| && rows[i].id in registered ==> after[i] == rows[i])
            && RepairedRows(after, registered) == after
            && OrphanIds(WithStatus(after, InProgress), registered) == []
            && OrphanIds(WithStatus(after, Testing), registered) == []
  {
    var after := RepairedRows(rows, registered);
    forall i | 0 <= i < |rows| ensures !Orphaned(after[i], registered) {
    }
    NoOrphansNoIds(WithStatus(after, InProgress), registered);
    NoOrphansNoIds(WithStatus(after, Testing), registered);
  }

  lemma NoOrphansNoIds(tickets: seq<Ticket>, registered: set<string>)
    requires forall t :: t in tickets ==> !Orphaned(t, registered)
    ensures OrphanIds(tickets, registered) == []
  {
    NoFirstOrphanIds(tickets, registered, |tickets|);
  }

  lemma {:induction false} NoFirstOrphanIds(tickets: seq<Ticket>, registered: set<string>, k: nat)
    requires k <= |tickets| && forall t :: t in tickets ==> !Orphaned(t, registered)
    ensures FirstOrphanIds(tickets, registered, k) == []
  {
    if k > 0 {
      NoFirstOrphanIds(tickets, registered, k - 1);
    }
  }
}
