/** Tickets, and the table that stores one project's tickets in (created_at, id) order. */
module Tickets {
  import opened Basics

  datatype TicketStatus =
    | Backlog | Ready | InProgress | Testing | DiffPending | Review | AwaitingAcceptance
    | Done | Blocked | Abandoned | Split

  datatype ContextFile = ContextFile(path: string, content: string, truncated: bool)

  datatype Execution = Execution(assignedModel: string, retryBudget: nat, attempts: nat)

  /** The metadata keys lease_worker_id and lease_expires_at, which are written and removed together. */
  datatype Lease = Lease(workerId: string, expiresAt: int)

  /** Which of the git metadata keys hold a value. */
  datatype GitTrail = GitTrail(branch: bool, base: bool, mergeCommit: bool, mergedTo: bool)

  /** What the product owner decided: accepted_by, product_rejected_by, needs_approval. */
  datatype Decisions = Decisions(accepted: bool, rejected: bool, needsApproval: bool)

  datatype Metadata = Metadata(
    lease: Option<Lease>,
    git: GitTrail,
    abandoned: bool,
    orphanedFrom: Option<TicketStatus>,
    orphanReason: bool,
    decisions: Decisions)

  datatype Ticket = Ticket(
    id: string,
    status: TicketStatus,
    dependencies: seq<string>,
    dependsOn: seq<string>,
    targetFiles: seq<string>,
    contextFiles: seq<ContextFile>,
    execution: Execution,
    metadata: Metadata)

  /** Both dependency lists, each id once, in order. */
  function Dependencies(t: Ticket): seq<string> {
    Distinct(t.dependencies + t.dependsOn)
  }

  /** Reading a ticket back forces the status of one flagged as abandoned. */
  function Stored(t: Ticket): (s: Ticket)
    ensures s == t.(status := s.status)
    ensures s.metadata.abandoned ==> s.status == Abandoned
    ensures !t.metadata.abandoned ==> s == t
  {
    if t.metadata.abandoned then t.(status := Abandoned) else t
  }

  // ---------- The table ----------

  predicate DistinctIds(rows: seq<Ticket>) {
    forall i, j :: 0 <= i < j < |rows| ==> rows[i].id != rows[j].id
  }

  /** Ids are a primary key, and every row has been through Stored. */
  predicate ValidRows(rows: seq<Ticket>) {
    DistinctIds(rows) && forall i :: 0 <= i < |rows| ==> Stored(rows[i]) == rows[i]
  }

  function Get(rows: seq<Ticket>, id: string): (t: Option<Ticket>)
    ensures t.Some? ==> t.value in rows && t.value.id == id
    ensures t.None? ==> forall i :: 0 <= i < |rows| ==> rows[i].id != id
  {
    if rows == [] then None
    else if rows[0].id == id then Some(rows[0])
    else Get(rows[1..], id)
  }

  /** UPDATE ... WHERE id = t.id */
  function Put(rows: seq<Ticket>, t: Ticket): (r: seq<Ticket>)
    ensures |r| == |rows|
    ensures forall i :: 0 <= i < |rows| ==> r[i] == if rows[i].id == t.id then Stored(t) else rows[i]
  {
    seq(|rows|, i requires 0 <= i < |rows| => if rows[i].id == t.id then Stored(t) else rows[i])
  }

  lemma GetAt(rows: seq<Ticket>, i: nat)
    requires DistinctIds(rows) && i < |rows|
    ensures Get(rows, rows[i].id) == Some(rows[i])
  {
  }

  lemma PutAt(rows: seq<Ticket>, i: nat, t: Ticket)
    requires DistinctIds(rows) && i < |rows| && rows[i].id == t.id
    ensures Put(rows, t) == rows[i := Stored(t)]
    ensures DistinctIds(Put(rows, t))
  {
  }

  lemma PutStaysValid(rows: seq<Ticket>, t: Ticket)
    requires ValidRows(rows)
    ensures ValidRows(Put(rows, t))
  {
  }

  lemma GetAfterPut(rows: seq<Ticket>, t: Ticket, id: string)
    ensures Get(Put(rows, t), id) ==
      if id == t.id && Get(rows, id).Some? then Some(Stored(t)) else Get(rows, id)
  {
    if rows != [] {
      GetAfterPut(rows[1..], t, id);
      assert Put(rows, t)[1..] == Put(rows[1..], t);
    }
  }

  /** Saving an unchanged ticket changes nothing. */
  lemma PutSame(rows: seq<Ticket>, t: Ticket)
    requires ValidRows(rows) && Get(rows, t.id) == Some(t)
    ensures Put(rows, t) == rows
  {
    var i :| 0 <= i < |rows| && rows[i] == t;
    PutAt(rows, i, t);
  }

  /** Of two saves of a ticket, the second one counts. */
  lemma PutTwice(rows: seq<Ticket>, first: Ticket, second: Ticket)
    requires first.id == second.id
    ensures Put(Put(rows, first), second) == Put(rows, second)
  {
  }
}
