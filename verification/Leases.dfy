/** Which ticket a worker may claim: leases, dependencies and target-file overlap. */
module Leases {
  import opened Basics
  import opened Tickets

  predicate LeaseActive(t: Ticket, now: int) {
    t.metadata.lease.Some? && t.metadata.lease.value.expiresAt > now
  }

  predicate HeldByAnother(t: Ticket, worker: string, now: int) {
    LeaseActive(t, now) && t.metadata.lease.value.workerId != worker
  }

  /** A dependency counts once it is done and, if it has a branch, merged. */
  predicate DoneAndMerged(t: Ticket) {
    t.status == Done && (t.metadata.git.branch ==> t.metadata.git.mergeCommit)
  }

  predicate Satisfied(rows: seq<Ticket>, id: string) {
    Get(rows, id).Some? && DoneAndMerged(Get(rows, id).value)
  }

  predicate DependenciesSatisfied(rows: seq<Ticket>, t: Ticket) {
    forall d :: d in Dependencies(t) ==> Satisfied(rows, d)
  }

  predicate SharesFiles(a: Ticket, b: Ticket) {
    exists f :: f in a.targetFiles && f in b.targetFiles
  }

  /** An active lease on another ticket covers one of this ticket's files. */
  predicate Conflicted(rows: seq<Ticket>, t: Ticket, now: int) {
    exists j :: 0 <= j < |rows| && LeaseActive(rows[j], now) && rows[j].id != t.id && SharesFiles(t, rows[j])
  }

  predicate Candidate(t: Ticket, worker: string, now: int) {
    t.status == Ready && !HeldByAnother(t, worker, now)
  }

  predicate Waiting(rows: seq<Ticket>, t: Ticket, worker: string, now: int) {
    Candidate(t, worker, now) && !DependenciesSatisfied(rows, t)
  }

  predicate HeldByOverlap(rows: seq<Ticket>, t: Ticket, worker: string, now: int) {
    Candidate(t, worker, now) && DependenciesSatisfied(rows, t) && Conflicted(rows, t, now)
  }

  predicate Claimable(rows: seq<Ticket>, t: Ticket, worker: string, now: int) {
    Candidate(t, worker, now) && DependenciesSatisfied(rows, t) && !Conflicted(rows, t, now)
  }

  function WithLease(t: Ticket, worker: string, expiresAt: int): Ticket {
    t.(metadata := t.metadata.(lease := Some(Lease(worker, expiresAt))))
  }

  function WithoutLease(t: Ticket): Ticket {
    t.(metadata := t.metadata.(lease := None))
  }

  function Expiry(now: int, ttlSec: int): int {
    now + Max(1, ttlSec)
  }

  datatype SkipReason = NoReason | TargetFileConflict | DependenciesPending

  datatype TicketLeaseClaim = TicketLeaseClaim(
    ticket: Option<Ticket>, skippedReason: SkipReason, conflictTicketIds: seq<string>)

  /** Row of the first claimable ticket at or after k, or the number of rows. */
  function FirstClaimable(rows: seq<Ticket>, worker: string, now: int, k: nat): (i: nat)
    requires k <= |rows|
    ensures k <= i <= |rows|
    ensures i < |rows| ==> Claimable(rows, rows[i], worker, now)
    ensures forall j :: k <= j < i ==> !Claimable(rows, rows[j], worker, now)
    decreases |rows| - k
  {
    if k == |rows| || Claimable(rows, rows[k], worker, now) then k
    else FirstClaimable(rows, worker, now, k + 1)
  }

  /** Ids of the first k rows' tickets that only an overlap keeps from being claimed, in row order. */
  function BlockedIds(rows: seq<Ticket>, worker: string, now: int, k: nat): (ids: seq<string>)
    requires k <= |rows|
    ensures ids != [] <==> exists j :: 0 <= j < k && HeldByOverlap(rows, rows[j], worker, now)
  {
    if k == 0 then []
    else
      var ids := BlockedIds(rows, worker, now, k - 1);
      if HeldByOverlap(rows, rows[k - 1], worker, now) then ids + [rows[k - 1].id] else ids
  }

  /** One of the first k rows' tickets is a candidate whose dependencies are not satisfied. */
  predicate SomeoneWaits(rows: seq<Ticket>, worker: string, now: int, k: nat)
    requires k <= |rows|
    ensures SomeoneWaits(rows, worker, now, k) <==> exists j :: 0 <= j < k && Waiting(rows, rows[j], worker, now)
  {
    k > 0 && (SomeoneWaits(rows, worker, now, k - 1) || Waiting(rows, rows[k - 1], worker, now))
  }

  /** The claim made by a worker, and the table after it. */
  function Claim(rows: seq<Ticket>, worker: string, now: int, ttlSec: int): (TicketLeaseClaim, seq<Ticket>) {
    var i := FirstClaimable(rows, worker, now, 0);
    if i < |rows| then
      var t := WithLease(rows[i], worker, Expiry(now, ttlSec));
      (TicketLeaseClaim(Some(t), NoReason, []), Put(rows, t))
    else
      var conflicts := BlockedIds(rows, worker, now, |rows|);
      var reason :=
        if conflicts != [] then TargetFileConflict
        else if SomeoneWaits(rows, worker, now, |rows|) then DependenciesPending
        else NoReason;
      (TicketLeaseClaim(None, reason, conflicts), rows)
  }

  // ---------- The other lease operations ----------

  /** renew_lease: only the recorded worker, whether or not the lease has expired. */
  function Renew(rows: seq<Ticket>, id: string, worker: string, now: int, ttlSec: int): seq<Ticket> {
    match Get(rows, id)
    case Some(t) =>
      if t.metadata.lease.Some? && t.metadata.lease.value.workerId == worker
      then Put(rows, WithLease(t, worker, Expiry(now, ttlSec)))
      else rows
    case None => rows
  }

  /** release_lease: by the recorded worker, or by anyone who names no worker. */
  function Release(rows: seq<Ticket>, id: string, worker: Option<string>): seq<Ticket> {
    match Get(rows, id)
    case Some(t) =>
      if worker.None? || (t.metadata.lease.Some? && t.metadata.lease.value.workerId == worker.value)
      then Put(rows, WithoutLease(t))
      else rows
    case None => rows
  }

  /** lease: one named ready ticket, without looking at overlaps. */
  function LeaseOne(rows: seq<Ticket>, id: string, worker: string, now: int, ttlSec: int): seq<Ticket> {
    match Get(rows, id)
    case Some(t) =>
      if Candidate(t, worker, now) then Put(rows, WithLease(t, worker, Expiry(now, ttlSec))) else rows
    case None => rows
  }

  /** A successful claim replaces exactly the first claimable row by its leased version. */
  lemma ClaimTakesTheFirst(rows: seq<Ticket>, worker: string, now: int, ttlSec: int)
    requires ValidRows(rows)
    ensures var (claim, after) := Claim(rows, worker, now, ttlSec);
            var i := FirstClaimable(rows, worker, now, 0);
            && (claim.ticket.Some? <==> i < |rows|)
            && (i < |rows| ==>
                  && claim.ticket == Some(WithLease(rows[i], worker, Expiry(now, ttlSec)))
                  && after == rows[i := claim.ticket.value])
  {
    var i := FirstClaimable(rows, worker, now, 0);
    if i < |rows| {
      PutAt(rows, i, WithLease(rows[i], worker, Expiry(now, ttlSec)));
    }
  }

  // ---------- The claim, told by the columns ----------

  /** The worker does not find another one's unexpired lease on the ticket. */
  predicate Unheld(t: Ticket, worker: string, now: int) {
    t.metadata.lease.Some? && t.metadata.lease.value.expiresAt > now ==> t.metadata.lease.value.workerId == worker
  }

  /** Every id in the ticket's two lists is that of a done ticket, merged if it has a branch. */
  ghost predicate DependenciesMet(rows: seq<Ticket>, t: Ticket) {
    forall d :: d in t.dependencies || d in t.dependsOn ==>
      exists j :: 0 <= j < |rows| && rows[j].id == d
                  && rows[j].status == Done && (rows[j].metadata.git.branch ==> rows[j].metadata.git.mergeCommit)
  }

  /** Another ticket with an unexpired lease names one of its files. */
  ghost predicate FilesTaken(rows: seq<Ticket>, t: Ticket, now: int) {
    exists j, f :: 0 <= j < |rows| && rows[j].id != t.id
                   && rows[j].metadata.lease.Some? && rows[j].metadata.lease.value.expiresAt > now
                   && f in t.targetFiles && f in rows[j].targetFiles
  }

  lemma ColumnsDecide(rows: seq<Ticket>, t: Ticket, worker: string, now: int)
    requires DistinctIds(rows)
    ensures Candidate(t, worker, now) <==> t.status == Ready && Unheld(t, worker, now)
    ensures DependenciesSatisfied(rows, t) <==> DependenciesMet(rows, t)
    ensures Conflicted(rows, t, now) <==> FilesTaken(rows, t, now)
  {
    forall d ensures Satisfied(rows, d) <==>
      exists j :: 0 <= j < |rows| && rows[j].id == d
                  && rows[j].status == Done && (rows[j].metadata.git.branch ==> rows[j].metadata.git.mergeCommit)
    {
      SatisfiedIff(rows, d);
    }
    assert forall d :: d in Dependencies(t) <==> d in t.dependencies || d in t.dependsOn;
  }

  lemma SatisfiedIff(rows: seq<Ticket>, d: string)
    requires DistinctIds(rows)
    ensures Satisfied(rows, d) <==>
      exists j :: 0 <= j < |rows| && rows[j].id == d
                  && rows[j].status == Done && (rows[j].metadata.git.branch ==> rows[j].metadata.git.mergeCommit)
  {
    if j :| 0 <= j < |rows| && rows[j].id == d {
      GetAt(rows, j);
    }
  }

  /** The ticket can be given to the worker. */
  ghost predicate MayTake(rows: seq<Ticket>, t: Ticket, worker: string, now: int) {
    t.status == Ready && Unheld(t, worker, now) && DependenciesMet(rows, t) && !FilesTaken(rows, t, now)
  }

  /** The ticket with the worker's lease of at least a second from now on, and otherwise as it was. */
  predicate LeasedFor(t: Ticket, leased: Ticket, worker: string, now: int, ttlSec: int) {
    && leased.metadata.lease == Some(Lease(worker, now + if ttlSec > 1 then ttlSec else 1))
    && leased == t.(metadata := t.metadata.(lease := leased.metadata.lease))
  }

  /** A claim gives out the first ticket that may be taken. Without one it names a conflict if overlap alone keeps
      some ticket back, or else a dependency that is not met. */
  ghost predicate ClaimsTheFirst(rows: seq<Ticket>, worker: string, now: int, ttlSec: int, claim: TicketLeaseClaim) {
    match claim.ticket
    case Some(t) =>
      exists i :: 0 <= i < |rows| && MayTake(rows, rows[i], worker, now)
                  && (forall j :: 0 <= j < i ==> !MayTake(rows, rows[j], worker, now))
                  && LeasedFor(rows[i], t, worker, now, ttlSec)
    case None =>
      && (forall j :: 0 <= j < |rows| ==> !MayTake(rows, rows[j], worker, now))
      && claim.skippedReason ==
           if exists j :: 0 <= j < |rows| && rows[j].status == Ready && Unheld(rows[j], worker, now)
                          && DependenciesMet(rows, rows[j]) && FilesTaken(rows, rows[j], now) then TargetFileConflict
           else if exists j :: 0 <= j < |rows| && rows[j].status == Ready && Unheld(rows[j], worker, now)
                               && !DependenciesMet(rows, rows[j]) then DependenciesPending
           else NoReason
  }

  lemma ClaimIsByTheColumns(rows: seq<Ticket>, worker: string, now: int, ttlSec: int)
    requires ValidRows(rows)
    ensures ClaimsTheFirst(rows, worker, now, ttlSec, Claim(rows, worker, now, ttlSec).0)
  {
    forall j | 0 <= j < |rows|
      ensures Claimable(rows, rows[j], worker, now) <==> MayTake(rows, rows[j], worker, now)
      ensures Waiting(rows, rows[j], worker, now)
        <==> rows[j].status == Ready && Unheld(rows[j], worker, now) && !DependenciesMet(rows, rows[j])
      ensures HeldByOverlap(rows, rows[j], worker, now)
        <==> rows[j].status == Ready && Unheld(rows[j], worker, now)
             && DependenciesMet(rows, rows[j]) && FilesTaken(rows, rows[j], now)
    {
      ColumnsDecide(rows, rows[j], worker, now);
    }
    ClaimTakesTheFirst(rows, worker, now, ttlSec);
  }
}
