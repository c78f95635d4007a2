/** Repeating "claim, finish, release" takes every ready ticket exactly when the dependencies allow it,
    and then in topological order. */
module Draining {
  import opened Basics
  import opened Graphs
  import opened Tickets
  import opened Leases

  /** One round's worker and time, and the git metadata each ticket has when its work ends. */
  datatype Shift = Shift(worker: string, now: int, ttlSec: int, git: string -> GitTrail)

  /** Finished tickets have no branch, or a merged one. */
  ghost predicate Merges(shift: Shift) {
    forall id :: shift.git(id).branch ==> shift.git(id).mergeCommit
  }

  function Finished(t: Ticket, shift: Shift): Ticket {
    t.(status := Done, metadata := t.metadata.(lease := None, git := shift.git(t.id)))
  }

  /** Claim the next ticket; save it as done; release its lease. */
  function Round(rows: seq<Ticket>, shift: Shift): (Option<string>, seq<Ticket>) {
    var (claim, leased) := Claim(rows, shift.worker, shift.now, shift.ttlSec);
    match claim.ticket
    case None => (None, rows)
    case Some(t) =>
      var done := Put(leased, t.(status := Done, metadata := t.metadata.(git := shift.git(t.id))));
      (Some(t.id), Release(done, t.id, Some(shift.worker)))
  }

  function ReadyCount(rows: seq<Ticket>): nat {
    if rows == [] then 0 else (if rows[0].status == Ready then 1 else 0) + ReadyCount(rows[1..])
  }

  lemma {:induction false} ReadyCountDrops(rows: seq<Ticket>, i: nat, t: Ticket)
    requires i < |rows| && rows[i].status == Ready && t.status != Ready
    ensures ReadyCount(rows[i := t]) == ReadyCount(rows) - 1
  {
    if i == 0 {
      assert rows[0 := t][1..] == rows[1..];
    } else {
      assert rows[i := t][1..] == rows[1..][i - 1 := t];
      ReadyCountDrops(rows[1..], i - 1, t);
    }
  }

  lemma FinishAt(rows: seq<Ticket>, i: nat, shift: Shift, expiresAt: int)
    requires ValidRows(rows) && i < |rows| && rows[i].status == Ready
    ensures var t := WithLease(rows[i], shift.worker, expiresAt);
            var done := Put(rows[i := t], t.(status := Done, metadata := t.metadata.(git := shift.git(t.id))));
            Release(done, t.id, Some(shift.worker)) == rows[i := Finished(rows[i], shift)]
  {
    var t := WithLease(rows[i], shift.worker, expiresAt);
    var u := t.(status := Done, metadata := t.metadata.(git := shift.git(t.id)));
    PutAt(rows[i := t], i, u);
    var done := rows[i := t][i := u];
    GetAt(done, i);
    PutAt(done, i, WithoutLease(u));
    assert done[i := WithoutLease(u)] == rows[i := Finished(rows[i], shift)];
  }

  /** A round finishes exactly the first claimable ticket, if there is one. */
  lemma RoundFinishesTheFirst(rows: seq<Ticket>, shift: Shift)
    requires ValidRows(rows)
    ensures var i := FirstClaimable(rows, shift.worker, shift.now, 0);
            if i < |rows| then
              && Round(rows, shift) == (Some(rows[i].id), rows[i := Finished(rows[i], shift)])
              && ReadyCount(Round(rows, shift).1) == ReadyCount(rows) - 1
            else Round(rows, shift) == (None, rows)
    ensures ValidRows(Round(rows, shift).1)
  {
    var i := FirstClaimable(rows, shift.worker, shift.now, 0);
    ClaimTakesTheFirst(rows, shift.worker, shift.now, shift.ttlSec);
    if i < |rows| {
      FinishAt(rows, i, shift, Expiry(shift.now, shift.ttlSec));
      ReadyCountDrops(rows, i, Finished(rows[i], shift));
    }
  }

  /** Rounds from number n on until a claim fails, each by any worker at any time: the ids in the order
      claimed, and the table at the end. */
  function Drain(rows: seq<Ticket>, shifts: nat -> Shift, n: nat): (seq<string>, seq<Ticket>)
    requires ValidRows(rows)
    decreases ReadyCount(rows)
  {
    RoundFinishesTheFirst(rows, shifts(n));
    var (claimed, after) := Round(rows, shifts(n));
    match claimed
    case None => ([], rows)
    case Some(id) =>
      var (order, final) := Drain(after, shifts, n + 1);
      ([id] + order, final)
  }

  ghost predicate AllMerge(shifts: nat -> Shift) {
    forall n :: Merges(shifts(n))
  }

  /** Time does not go back between rounds. */
  ghost predicate InTime(shifts: nat -> Shift) {
    forall m, n :: m <= n ==> shifts(m).now <= shifts(n).now
  }

  predicate IsReady(rows: seq<Ticket>, id: string) {
    Get(rows, id).Some? && Get(rows, id).value.status == Ready
  }

  /** What a round that claims a ticket does to the state of any ticket. */
  predicate Effect(rows: seq<Ticket>, claimed: string, after: seq<Ticket>, id: string) {
    && IsReady(rows, claimed)
    && DependenciesSatisfied(rows, Get(rows, claimed).value)
    && (id == claimed ==> !IsReady(after, id) && Satisfied(after, id))
    && (id != claimed ==> Get(after, id) == Get(rows, id))
  }

  lemma RoundEffect(rows: seq<Ticket>, shift: Shift, id: string)
    requires ValidRows(rows) && Merges(shift) && Round(rows, shift).0.Some?
    ensures Effect(rows, Round(rows, shift).0.value, Round(rows, shift).1, id)
  {
    RoundFinishesTheFirst(rows, shift);
    var i := FirstClaimable(rows, shift.worker, shift.now, 0);
    var after := Round(rows, shift).1;
    GetAt(rows, i);
    GetAt(after, i);
    PutAt(rows, i, Finished(rows[i], shift));
    GetAfterPut(rows, Finished(rows[i], shift), id);
  }

  // ---------- Safety: a linear extension, whatever the dependencies ----------

  /** A drain is empty, or one claim followed by a drain of fewer ready tickets. */
  lemma DrainStep(rows: seq<Ticket>, shifts: nat -> Shift, n: nat) returns (claimed: Option<string>, after: seq<Ticket>)
    requires ValidRows(rows) && AllMerge(shifts)
    ensures claimed.None? ==> Drain(rows, shifts, n) == ([], rows)
    ensures claimed.Some? ==>
      && ValidRows(after) && ReadyCount(after) < ReadyCount(rows)
      && Drain(rows, shifts, n) == ([claimed.value] + Drain(after, shifts, n + 1).0, Drain(after, shifts, n + 1).1)
      && forall id :: Effect(rows, claimed.value, after, id)
  {
    RoundFinishesTheFirst(rows, shifts(n));
    claimed, after := Round(rows, shifts(n)).0, Round(rows, shifts(n)).1;
    if claimed.Some? {
      forall id ensures Effect(rows, claimed.value, after, id) {
        RoundEffect(rows, shifts(n), id);
      }
    }
  }

  /** Every claimed ticket was ready and ends done and merged; no other ticket changes. */
  lemma {:induction false} DrainClaims(rows: seq<Ticket>, shifts: nat -> Shift, n: nat, id: string)
    requires ValidRows(rows) && AllMerge(shifts)
    ensures var (order, final) := Drain(rows, shifts, n);
            && (id in order ==> IsReady(rows, id) && Satisfied(final, id))
            && (id !in order ==> Get(final, id) == Get(rows, id))
    decreases ReadyCount(rows)
  {
    var claimed, after := DrainStep(rows, shifts, n);
    if claimed.Some? {
      assert Effect(rows, claimed.value, after, id);
      DrainClaims(after, shifts, n + 1, id);
    }
  }

  /** No ticket is claimed twice. */
  lemma {:induction false} DrainClaimsOnce(rows: seq<Ticket>, shifts: nat -> Shift, n: nat)
    requires ValidRows(rows) && AllMerge(shifts)
    ensures NoDuplicates(Drain(rows, shifts, n).0)
    decreases ReadyCount(rows)
  {
    var claimed, after := DrainStep(rows, shifts, n);
    if claimed.Some? {
      DrainClaimsOnce(after, shifts, n + 1);
      assert Effect(rows, claimed.value, after, claimed.value);
      DrainClaims(after, shifts, n + 1, claimed.value);
    }
  }

  /** A ticket with an unsatisfied dependency is not claimed, and goes on waiting for it. */
  lemma StillWaiting(rows: seq<Ticket>, claimed: string, after: seq<Ticket>, id: string, d: string)
    requires Effect(rows, claimed, after, id) && Effect(rows, claimed, after, d)
    requires IsReady(rows, id) && d in Dependencies(Get(rows, id).value) && !Satisfied(rows, d)
    ensures id != claimed
    ensures d != claimed ==> IsReady(after, id) && d in Dependencies(Get(after, id).value) && !Satisfied(after, d)
  {
  }

  lemma OrderedBehind(order: seq<string>, first: string, later: seq<string>, d: string, id: string)
    requires order == [first] + later && id != first && id in later
    requires d == first || (d in later && FirstPosition(later, d) < FirstPosition(later, id))
    ensures d in order && FirstPosition(order, d) < FirstPosition(order, id)
  {
    assert order[1..] == later;
  }

  /** A ticket is claimed only after each of its dependencies was claimed, unless that one was satisfied from
      the start. */
  lemma {:induction false} DrainOrder(rows: seq<Ticket>, shifts: nat -> Shift, n: nat, id: string, d: string)
    requires ValidRows(rows) && AllMerge(shifts) && id in Drain(rows, shifts, n).0
    requires IsReady(rows, id) && d in Dependencies(Get(rows, id).value) && !Satisfied(rows, d)
    ensures var order := Drain(rows, shifts, n).0;
            d in order && FirstPosition(order, d) < FirstPosition(order, id)
    decreases ReadyCount(rows)
  {
    var claimed, after := DrainStep(rows, shifts, n);
    assert Effect(rows, claimed.value, after, id) && Effect(rows, claimed.value, after, d);
    StillWaiting(rows, claimed.value, after, id, d);
    if d != claimed.value {
      DrainOrder(after, shifts, n + 1, id, d);
    }
    OrderedBehind(Drain(rows, shifts, n).0, claimed.value, Drain(after, shifts, n + 1).0, d, id);
  }

  // ---------- Progress: exactly the acyclic, closed graphs drain completely ----------

  /** Dependencies among the ready tickets. */
  function ReadyEdges(rows: seq<Ticket>): set<(string, string)> {
    set t, d | t in rows && t.status == Ready && d in Dependencies(t) && IsReady(rows, d) :: (t.id, d)
  }

  /** Each dependency of a ready ticket is satisfied already or is itself a ready ticket. */
  predicate Closed(rows: seq<Ticket>) {
    forall t :: t in rows && t.status == Ready ==>
      forall d :: d in Dependencies(t) ==> Satisfied(rows, d) || IsReady(rows, d)
  }

  predicate NoActiveLeases(rows: seq<Ticket>, now: int) {
    forall i :: 0 <= i < |rows| ==> !LeaseActive(rows[i], now)
  }

  predicate AllReadyClaimed(rows: seq<Ticket>, order: seq<string>) {
    forall t :: t in rows && t.status == Ready ==> t.id in order
  }

  function ReadyIds(rows: seq<Ticket>): set<string> {
    set t | t in rows && t.status == Ready :: t.id
  }

  /** If no claim succeeds although nothing is leased, every ready ticket waits for a ready ticket. */
  lemma StuckMeansNoSink(rows: seq<Ticket>, shift: Shift)
    requires ValidRows(rows) && NoActiveLeases(rows, shift.now) && Closed(rows)
    requires FirstClaimable(rows, shift.worker, shift.now, 0) == |rows|
    ensures NoSink(ReadyEdges(rows), ReadyIds(rows))
  {
    forall a | a in ReadyIds(rows) ensures HasSuccessor(ReadyEdges(rows), ReadyIds(rows), a) {
      var t :| t in rows && t.status == Ready && t.id == a;
      var i :| 0 <= i < |rows| && rows[i] == t;
      assert !Claimable(rows, rows[i], shift.worker, shift.now);
      assert !DependenciesSatisfied(rows, t);
      var d :| d in Dependencies(t) && !Satisfied(rows, d);
      assert IsReady(rows, d);
      assert Get(rows, d).value in rows;
      assert (a, d) in ReadyEdges(rows);
    }
  }

  lemma FewerEdgesStayAcyclic(fewer: set<(string, string)>, edges: set<(string, string)>)
    requires fewer <= edges && Acyclic(edges)
    ensures Acyclic(fewer)
  {
    forall walk: seq<string> | |walk| >= 2 && IsWalk(fewer, walk) ensures walk[0] != walk[|walk| - 1] {
      assert IsWalk(edges, walk);
    }
  }

  /** After a round, the ready tickets are the old ones without the one claimed, and no lease is active. */
  lemma RoundLeavesTheRest(rows: seq<Ticket>, shift: Shift)
    requires ValidRows(rows) && Round(rows, shift).0.Some? && NoActiveLeases(rows, shift.now)
    ensures var (claimed, after) := Round(rows, shift);
            && NoActiveLeases(after, shift.now)
            && forall t :: t in after && t.status == Ready ==> t in rows && t.id != claimed.value
  {
    RoundFinishesTheFirst(rows, shift);
    var (claimed, after) := Round(rows, shift);
    var i := FirstClaimable(rows, shift.worker, shift.now, 0);
    forall t | t in after && t.status == Ready ensures t in rows && t.id != claimed.value {
      var k :| 0 <= k < |after| && after[k] == t;
      assert k != i;
    }
  }

  /** A round keeps the hypotheses of draining. */
  lemma RoundKeepsDrainable(rows: seq<Ticket>, shift: Shift)
    requires ValidRows(rows) && Merges(shift) && Round(rows, shift).0.Some?
    requires NoActiveLeases(rows, shift.now) && Closed(rows) && Acyclic(ReadyEdges(rows))
    ensures var after := Round(rows, shift).1;
            NoActiveLeases(after, shift.now) && Closed(after) && Acyclic(ReadyEdges(after))
  {
    var (claimed, after) := Round(rows, shift);
    RoundLeavesTheRest(rows, shift);
    forall id
      ensures IsReady(after, id) ==> IsReady(rows, id)
      ensures Satisfied(rows, id) || id == claimed.value ==> Satisfied(after, id)
      ensures IsReady(rows, id) && id != claimed.value ==> IsReady(after, id)
    {
      RoundEffect(rows, shift, id);
    }
    FewerEdgesStayAcyclic(ReadyEdges(after), ReadyEdges(rows));
  }

  lemma {:induction false} AcyclicDrains(rows: seq<Ticket>, shifts: nat -> Shift, n: nat)
    requires ValidRows(rows) && AllMerge(shifts) && NoActiveLeases(rows, shifts(n).now) && InTime(shifts)
    requires Closed(rows) && Acyclic(ReadyEdges(rows))
    ensures AllReadyClaimed(rows, Drain(rows, shifts, n).0)
    decreases ReadyCount(rows)
  {
    RoundFinishesTheFirst(rows, shifts(n));
    var (claimed, after) := Round(rows, shifts(n));
    if claimed.Some? {
      RoundKeepsDrainable(rows, shifts(n));
      AcyclicDrains(after, shifts, n + 1);
      var i := FirstClaimable(rows, shifts(n).worker, shifts(n).now, 0);
      forall t | t in rows && t.status == Ready ensures t.id in Drain(rows, shifts, n).0 {
        var k :| 0 <= k < |rows| && rows[k] == t;
        assert k != i ==> after[k] == t;
      }
    } else {
      StuckMeansNoSink(rows, shifts(n));
      if ReadyIds(rows) != {} {
        NoSinkMeansCycle(ReadyEdges(rows), ReadyIds(rows));
      }
      assert forall t :: t in rows && t.status == Ready ==> t.id in ReadyIds(rows);
    }
  }

  /** With no lease in force at the first round, the rounds, by whatever workers and at whatever times, take
      every ready ticket exactly when each dependency is satisfied or ready and the ready tickets' dependencies
      have no cycle. */
  lemma DrainsIffAcyclic(rows: seq<Ticket>, shifts: nat -> Shift, n: nat)
    requires ValidRows(rows) && AllMerge(shifts) && NoActiveLeases(rows, shifts(n).now) && InTime(shifts)
    ensures AllReadyClaimed(rows, Drain(rows, shifts, n).0) <==> Closed(rows) && Acyclic(ReadyEdges(rows))
  {
    if Closed(rows) && Acyclic(ReadyEdges(rows)) {
      AcyclicDrains(rows, shifts, n);
    }
    if AllReadyClaimed(rows, Drain(rows, shifts, n).0) {
      ClaimedAllMeansSorted(rows, shifts, n);
      SortedIsAcyclic(Drain(rows, shifts, n).0, ReadyEdges(rows));
    }
  }

  lemma ClaimedAllMeansSorted(rows: seq<Ticket>, shifts: nat -> Shift, n: nat)
    requires ValidRows(rows) && AllMerge(shifts)
    requires AllReadyClaimed(rows, Drain(rows, shifts, n).0)
    ensures Closed(rows) && Sorts(Drain(rows, shifts, n).0, ReadyEdges(rows))
  {
    var order := Drain(rows, shifts, n).0;
    forall t, d | t in rows && t.status == Ready && d in Dependencies(t) && !Satisfied(rows, d)
      ensures IsReady(rows, d) && d in order && FirstPosition(order, d) < FirstPosition(order, t.id)
    {
      var k :| 0 <= k < |rows| && rows[k] == t;
      GetAt(rows, k);
      DrainClaims(rows, shifts, n, d);
      DrainOrder(rows, shifts, n, t.id, d);
    }
    forall a, b | (a, b) in ReadyEdges(rows)
      ensures b in order && a in order && FirstPosition(order, b) < FirstPosition(order, a)
    {
      var t :| t in rows && t.status == Ready && t.id == a && b in Dependencies(t) && IsReady(rows, b);
      assert !Satisfied(rows, b);
    }
  }

  /** A drain makes as many successful claims as tickets stop being ready. */
  lemma {:induction false} DrainLength(rows: seq<Ticket>, shifts: nat -> Shift, n: nat)
    requires ValidRows(rows)
    ensures var (order, final) := Drain(rows, shifts, n);
            |order| == ReadyCount(rows) - ReadyCount(final)
    decreases ReadyCount(rows)
  {
    RoundFinishesTheFirst(rows, shifts(n));
    var (claimed, after) := Round(rows, shifts(n));
    if claimed.Some? {
      DrainLength(after, shifts, n + 1);
    }
  }

  const NOTHING_TO_CLAIM: (seq<Ticket>, Shift) -> bool := (rows, shift) => Round(rows, shift).0.None?

  /** A drain that ended with this table and so many claims ended with this shift's failing claim. */
  predicate FailsAt(fails: (seq<Ticket>, Shift) -> bool, shifts: nat -> Shift, n: nat,
                    drained: (seq<string>, seq<Ticket>))
  {
    fails(drained.1, shifts(n + |drained.0|))
  }

  lemma FailsLater(fails: (seq<Ticket>, Shift) -> bool, shifts: nat -> Shift, n: nat, claimed: string,
                   later: (seq<string>, seq<Ticket>))
    requires FailsAt(fails, shifts, n + 1, later)
    ensures FailsAt(fails, shifts, n, ([claimed] + later.0, later.1))
  {
    assert n + |[claimed] + later.0| == n + 1 + |later.0|;
  }

  /** Then a claim fails. */
  lemma {:induction false} DrainEnds(rows: seq<Ticket>, shifts: nat -> Shift, n: nat)
    requires ValidRows(rows)
    ensures FailsAt(NOTHING_TO_CLAIM, shifts, n, Drain(rows, shifts, n))
    decreases ReadyCount(rows)
  {
    RoundFinishesTheFirst(rows, shifts(n));
    var (claimed, after) := Round(rows, shifts(n));
    if claimed.Some? {
      DrainEnds(after, shifts, n + 1);
      FailsLater(NOTHING_TO_CLAIM, shifts, n, claimed.value, Drain(after, shifts, n + 1));
    }
  }
}
