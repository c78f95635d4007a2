/** Over whole runs of the scheduler, active leases cover disjoint sets of files. */
module LeaseSafety {
  import opened Basics
  import opened Tickets
  import opened Leases

  /** Any two tickets with active leases have no target file in common. */
  predicate Disjoint(rows: seq<Ticket>, now: int) {
    forall i, j :: 0 <= i < j < |rows| && LeaseActive(rows[i], now) && LeaseActive(rows[j], now)
      ==> !SharesFiles(rows[i], rows[j])
  }

  datatype State = State(rows: seq<Ticket>, now: int)

  datatype Step =
    | ClaimNext(worker: string, ttlSec: int)
    | ReleaseOne(id: string, releaser: Option<string>)
    | RenewOne(id: string, worker: string, ttlSec: int)
    | Advance(seconds: nat)
    | Edit(ticket: Ticket)                    // any save that leaves lease and target files alone
    | Create(ticket: Ticket, position: nat)   // a new ticket, without a lease
    | SplitUp(id: string, newIds: seq<string>, position: nat)   // children get the ids, one for each target file

  /** The snapshots of one path. */
  function SnapshotsOf(files: seq<ContextFile>, path: string): seq<ContextFile> {
    if files == [] then []
    else (if files[0].path == path then [files[0]] else []) + SnapshotsOf(files[1..], path)
  }

  /** A child is a copy of its parent, lease included, for one of its target files. */
  function Child(t: Ticket, id: string, file: string): Ticket {
    var own := SnapshotsOf(t.contextFiles, file);
    t.(id := id, status := Backlog, dependencies := [], targetFiles := [file],
       contextFiles := if own == [] then t.contextFiles else own,
       metadata := t.metadata.(abandoned := false, decisions := t.metadata.decisions.(needsApproval := true)))
  }

  function Children(t: Ticket, ids: seq<string>): (r: seq<Ticket>)
    requires |ids| == |t.targetFiles|
    ensures |r| == |ids| && forall i :: 0 <= i < |r| ==> r[i] == Child(t, ids[i], t.targetFiles[i])
  {
    seq(|ids|, i requires 0 <= i < |ids| => Child(t, ids[i], t.targetFiles[i]))
  }

  /** One new id for each target file. */
  predicate CanName(rows: seq<Ticket>, t: Ticket, ids: seq<string>) {
    && |ids| == |t.targetFiles|
    && NoDuplicates(ids)
    && forall i :: 0 <= i < |ids| ==> Get(rows, ids[i]).None?
  }

  predicate CanSplit(t: Ticket) {
    t.status !in {InProgress, Testing, Done, Abandoned, Split}
  }

  function InsertAll(rows: seq<Ticket>, more: seq<Ticket>, position: nat): (r: seq<Ticket>)
    requires position <= |rows|
    ensures |r| == |rows| + |more|
    ensures forall k :: 0 <= k < position ==> r[k] == rows[k]
    ensures forall k :: position <= k < position + |more| ==> r[k] == more[k - position]
    ensures forall k :: position + |more| <= k < |r| ==> r[k] == rows[k - |more|]
  {
    rows[..position] + more + rows[position..]
  }

  function SplitParent(t: Ticket): Ticket {
    t.(status := Split, metadata := t.metadata.(decisions := t.metadata.decisions.(needsApproval := false)))
  }

  /** The children are created, and then the parent is saved. */
  function SplitRows(rows: seq<Ticket>, t: Ticket, ids: seq<string>, position: nat): seq<Ticket>
    requires |ids| == |t.targetFiles| && position <= |rows|
  {
    Put(InsertAll(rows, Children(t, ids), position), SplitParent(t))
  }

  predicate Allowed(s: State, step: Step) {
    match step
    case RenewOne(id, _, _) => Get(s.rows, id).Some? ==> LeaseActive(Get(s.rows, id).value, s.now)
    case Edit(t) =>
      Get(s.rows, t.id).Some? ==>
        var before := Get(s.rows, t.id).value;
        t.targetFiles == before.targetFiles && t.metadata.lease == before.metadata.lease
    case Create(t, position) =>
      Get(s.rows, t.id).None? && t.metadata.lease.None? && position <= |s.rows|
    case SplitUp(id, newIds, position) =>
      Get(s.rows, id).Some? ==>
        var t := Get(s.rows, id).value;
        CanName(s.rows, t, newIds) && position <= |s.rows| && (LeaseActive(t, s.now) ==> t.targetFiles == [])
    case _ => true
  }

  function Insert(rows: seq<Ticket>, t: Ticket, position: nat): (r: seq<Ticket>)
    requires position <= |rows|
    ensures |r| == |rows| + 1 && r[position] == Stored(t)
    ensures forall k :: 0 <= k < position ==> r[k] == rows[k]
    ensures forall k :: position < k < |r| ==> r[k] == rows[k - 1]
  {
    rows[..position] + [Stored(t)] + rows[position..]
  }

  function Next(s: State, step: Step): State
    requires Allowed(s, step)
  {
    match step
    case ClaimNext(worker, ttlSec) => s.(rows := Claim(s.rows, worker, s.now, ttlSec).1)
    case ReleaseOne(id, releaser) => s.(rows := Release(s.rows, id, releaser))
    case RenewOne(id, worker, ttlSec) => s.(rows := Renew(s.rows, id, worker, s.now, ttlSec))
    case Advance(seconds) => s.(now := s.now + seconds)
    case Edit(t) => s.(rows := Put(s.rows, t))
    case Create(t, position) => s.(rows := Insert(s.rows, t, position))
    case SplitUp(id, newIds, position) =>
      match Get(s.rows, id)
      case None => s
      case Some(t) => if CanSplit(t) then s.(rows := SplitRows(s.rows, t, newIds, position)) else s
  }

  predicate AllowedRun(s: State, steps: seq<Step>)
    decreases |steps|
  {
    steps == [] || (Allowed(s, steps[0]) && AllowedRun(Next(s, steps[0]), steps[1..]))
  }

  function Final(s: State, steps: seq<Step>): State
    requires AllowedRun(s, steps)
    decreases |steps|
  {
    if steps == [] then s else Final(Next(s, steps[0]), steps[1..])
  }

  // ---------- Single steps ----------

  lemma SharingIsSymmetric(a: Ticket, b: Ticket)
    ensures SharesFiles(a, b) <==> SharesFiles(b, a)
  {
  }

  lemma SharingNeedsOnlyFiles(a: Ticket, b: Ticket, c: Ticket)
    requires a.targetFiles == b.targetFiles
    ensures SharesFiles(a, c) <==> SharesFiles(b, c)
    ensures SharesFiles(c, a) <==> SharesFiles(c, b)
  {
  }

  /** Giving one ticket a lease keeps the leases disjoint exactly when no other active lease overlaps it. */
  lemma GrantKeepsDisjointIff(rows: seq<Ticket>, i: nat, worker: string, now: int, expiresAt: int)
    requires ValidRows(rows) && i < |rows| && Disjoint(rows, now) && expiresAt > now
    ensures Disjoint(rows[i := WithLease(rows[i], worker, expiresAt)], now) <==> !Conflicted(rows, rows[i], now)
  {
    var t := WithLease(rows[i], worker, expiresAt);
    var after := rows[i := t];
    forall j | 0 <= j < |rows| && j != i
      ensures SharesFiles(t, rows[j]) <==> SharesFiles(rows[i], rows[j])
      ensures SharesFiles(rows[j], t) <==> SharesFiles(rows[i], rows[j])
      ensures rows[j].id != rows[i].id && after[j] == rows[j]
    {
      SharingNeedsOnlyFiles(t, rows[i], rows[j]);
      SharingIsSymmetric(rows[i], rows[j]);
    }
    if Conflicted(rows, rows[i], now) {
      var j :| 0 <= j < |rows| && LeaseActive(rows[j], now) && rows[j].id != rows[i].id
        && SharesFiles(rows[i], rows[j]);
      assert after[i] == t && LeaseActive(after[i], now) && LeaseActive(after[j], now);
    }
  }

  lemma ClaimKeepsDisjoint(rows: seq<Ticket>, worker: string, now: int, ttlSec: int)
    requires ValidRows(rows) && Disjoint(rows, now)
    ensures ValidRows(Claim(rows, worker, now, ttlSec).1) && Disjoint(Claim(rows, worker, now, ttlSec).1, now)
  {
    var i := FirstClaimable(rows, worker, now, 0);
    ClaimTakesTheFirst(rows, worker, now, ttlSec);
    if i < |rows| {
      PutStaysValid(rows, WithLease(rows[i], worker, Expiry(now, ttlSec)));
      GrantKeepsDisjointIff(rows, i, worker, now, Expiry(now, ttlSec));
    }
  }

  /** A save that activates no lease and changes no active ticket's files. */
  lemma QuietSaveKeepsDisjoint(rows: seq<Ticket>, t: Ticket, now: int)
    requires ValidRows(rows) && Disjoint(rows, now)
    requires Get(rows, t.id).Some? && LeaseActive(t, now) ==>
      LeaseActive(Get(rows, t.id).value, now) && t.targetFiles == Get(rows, t.id).value.targetFiles
    ensures ValidRows(Put(rows, t)) && Disjoint(Put(rows, t), now)
  {
    PutStaysValid(rows, t);
    var after := Put(rows, t);
    forall k | 0 <= k < |rows| && LeaseActive(after[k], now)
      ensures LeaseActive(rows[k], now) && after[k].targetFiles == rows[k].targetFiles
    {
      GetAt(rows, k);
    }
    forall i, j | 0 <= i < j < |rows| && LeaseActive(after[i], now) && LeaseActive(after[j], now)
      ensures !SharesFiles(after[i], after[j])
    {
      SharingNeedsOnlyFiles(after[i], rows[i], after[j]);
      SharingNeedsOnlyFiles(after[j], rows[j], rows[i]);
    }
  }

  lemma InsertStaysValid(rows: seq<Ticket>, more: seq<Ticket>, position: nat)
    requires ValidRows(rows) && ValidRows(more) && position <= |rows|
    requires forall j :: 0 <= j < |more| ==> Get(rows, more[j].id).None?
    ensures ValidRows(InsertAll(rows, more, position))
  {
    var after, n := InsertAll(rows, more, position), |more|;
    forall i, j | 0 <= i < j < |after| ensures after[i].id != after[j].id {
      if i < position <= j < position + n {
        assert Get(rows, more[j - position].id).None?;
      } else if position <= i < position + n <= j {
        assert Get(rows, more[i - position].id).None?;
      } else {
        assert i < position && position + n <= j ==> rows[i].id != rows[j - n].id;
      }
    }
  }

  /** New rows without an active lease make no difference. */
  lemma InsertKeepsDisjoint(rows: seq<Ticket>, more: seq<Ticket>, position: nat, now: int)
    requires Disjoint(rows, now) && position <= |rows|
    requires forall j :: 0 <= j < |more| ==> !LeaseActive(more[j], now)
    ensures Disjoint(InsertAll(rows, more, position), now)
  {
    var after, n := InsertAll(rows, more, position), |more|;
    forall i, j | 0 <= i < j < |after| && LeaseActive(after[i], now) && LeaseActive(after[j], now)
      ensures !SharesFiles(after[i], after[j])
    {
      var k := if i < position then i else i - n;
      var m := if j < position then j else j - n;
      assert after[i] == rows[k] && after[j] == rows[m];
    }
  }

  lemma CreateKeepsDisjoint(rows: seq<Ticket>, t: Ticket, position: nat, now: int)
    requires ValidRows(rows) && Disjoint(rows, now)
    requires position <= |rows| && t.metadata.lease.None? && Get(rows, t.id).None?
    ensures ValidRows(Insert(rows, t, position)) && Disjoint(Insert(rows, t, position), now)
  {
    var more := [Stored(t)];
    assert Insert(rows, t, position) == InsertAll(rows, more, position);
    InsertStaysValid(rows, more, position);
    InsertKeepsDisjoint(rows, more, position, now);
  }

  lemma SplitStaysValid(rows: seq<Ticket>, t: Ticket, ids: seq<string>, position: nat)
    requires ValidRows(rows) && Get(rows, t.id) == Some(t) && CanSplit(t) && CanName(rows, t, ids) && position <= |rows|
    ensures ValidRows(InsertAll(rows, Children(t, ids), position)) && ValidRows(SplitRows(rows, t, ids, position))
  {
    InsertStaysValid(rows, Children(t, ids), position);
    PutStaysValid(InsertAll(rows, Children(t, ids), position), SplitParent(t));
  }

  lemma SplitParentRow(rows: seq<Ticket>, t: Ticket, ids: seq<string>, position: nat) returns (q: nat)
    requires ValidRows(rows) && Get(rows, t.id) == Some(t) && CanSplit(t) && CanName(rows, t, ids) && position <= |rows|
    ensures q < |rows| + |ids| && !(position <= q < position + |ids|)
    ensures SplitRows(rows, t, ids, position) == InsertAll(rows, Children(t, ids), position)[q := SplitParent(t)]
  {
    SplitStaysValid(rows, t, ids, position);
    var all := InsertAll(rows, Children(t, ids), position);
    var p :| 0 <= p < |rows| && rows[p] == t;
    q := if p < position then p else p + |ids|;
    assert all[q] == t;
    PutAt(all, q, SplitParent(t));
  }

  /** A parent with an active lease overlaps with its first child. */
  lemma ChildOverlaps(rows: seq<Ticket>, t: Ticket, ids: seq<string>, position: nat, now: int)
    requires ValidRows(rows) && Get(rows, t.id) == Some(t) && CanSplit(t) && CanName(rows, t, ids) && position <= |rows|
    requires LeaseActive(t, now) && t.targetFiles != []
    ensures !Disjoint(SplitRows(rows, t, ids, position), now)
  {
    var q := SplitParentRow(rows, t, ids, position);
    var after, child, parent := SplitRows(rows, t, ids, position), Children(t, ids)[0], SplitParent(t);
    assert after[position] == child && after[q] == parent && position != q;
    assert LeaseActive(child, now) && LeaseActive(parent, now);
    assert t.targetFiles[0] in child.targetFiles && t.targetFiles[0] in parent.targetFiles;
    SharingIsSymmetric(parent, child);
  }

  lemma QuietSplitKeepsDisjoint(rows: seq<Ticket>, t: Ticket, ids: seq<string>, position: nat, now: int)
    requires ValidRows(rows) && Disjoint(rows, now)
    requires Get(rows, t.id) == Some(t) && CanSplit(t) && CanName(rows, t, ids) && position <= |rows|
    requires !LeaseActive(t, now) || t.targetFiles == []
    ensures Disjoint(SplitRows(rows, t, ids, position), now)
  {
    var children := Children(t, ids);
    SplitStaysValid(rows, t, ids, position);
    InsertKeepsDisjoint(rows, children, position, now);
    if children == [] {
      assert InsertAll(rows, children, position) == rows;
    }
    QuietSaveKeepsDisjoint(InsertAll(rows, children, position), SplitParent(t), now);
  }

  /** Splitting a ticket keeps the leases disjoint exactly when its own lease is not active, or it has no files. */
  lemma SplitKeepsDisjointIff(rows: seq<Ticket>, t: Ticket, ids: seq<string>, position: nat, now: int)
    requires ValidRows(rows) && Disjoint(rows, now)
    requires Get(rows, t.id) == Some(t) && CanSplit(t) && CanName(rows, t, ids) && position <= |rows|
    ensures Disjoint(SplitRows(rows, t, ids, position), now) <==> !LeaseActive(t, now) || t.targetFiles == []
  {
    if LeaseActive(t, now) && t.targetFiles != [] {
      ChildOverlaps(rows, t, ids, position, now);
    } else {
      QuietSplitKeepsDisjoint(rows, t, ids, position, now);
    }
  }

  lemma StepKeepsDisjoint(s: State, step: Step)
    requires ValidRows(s.rows) && Disjoint(s.rows, s.now) && Allowed(s, step)
    ensures ValidRows(Next(s, step).rows) && Disjoint(Next(s, step).rows, Next(s, step).now)
  {
    match step
    case ClaimNext(worker, ttlSec) => ClaimKeepsDisjoint(s.rows, worker, s.now, ttlSec);
    case ReleaseOne(id, releaser) =>
      if Get(s.rows, id).Some? {
        QuietSaveKeepsDisjoint(s.rows, WithoutLease(Get(s.rows, id).value), s.now);
      }
    case RenewOne(id, worker, ttlSec) =>
      if Get(s.rows, id).Some? {
        QuietSaveKeepsDisjoint(s.rows, WithLease(Get(s.rows, id).value, worker, Expiry(s.now, ttlSec)), s.now);
      }
    case Advance(seconds) =>
    case Edit(t) => QuietSaveKeepsDisjoint(s.rows, t, s.now);
    case Create(t, position) => CreateKeepsDisjoint(s.rows, t, position, s.now);
    case SplitUp(id, newIds, position) =>
      if Get(s.rows, id).Some? && CanSplit(Get(s.rows, id).value) {
        SplitStaysValid(s.rows, Get(s.rows, id).value, newIds, position);
        SplitKeepsDisjointIff(s.rows, Get(s.rows, id).value, newIds, position, s.now);
      }
  }

  /** Whatever the interleaving of claims, releases, timely renewals, edits, creations, time, and splits of
      tickets whose lease is not active, active leases never overlap. */
  lemma {:induction false} LeasesStayDisjoint(s: State, steps: seq<Step>)
    requires ValidRows(s.rows) && Disjoint(s.rows, s.now) && AllowedRun(s, steps)
    ensures Disjoint(Final(s, steps).rows, Final(s, steps).now)
    decreases |steps|
  {
    if steps != [] {
      StepKeepsDisjoint(s, steps[0]);
      LeasesStayDisjoint(Next(s, steps[0]), steps[1..]);
    }
  }

  // ---------- The two operations that do not look at overlaps ----------

  /** Renewing, in time or late, keeps the leases disjoint exactly when nothing active overlaps the ticket. */
  lemma RenewalKeepsDisjointIff(rows: seq<Ticket>, id: string, worker: string, now: int, ttlSec: int)
    requires ValidRows(rows) && Disjoint(rows, now)
    requires var t := Get(rows, id);
             t.Some? && t.value.metadata.lease.Some? && t.value.metadata.lease.value.workerId == worker
    ensures Disjoint(Renew(rows, id, worker, now, ttlSec), now) <==> !Conflicted(rows, Get(rows, id).value, now)
  {
    var i :| 0 <= i < |rows| && rows[i] == Get(rows, id).value;
    PutAt(rows, i, WithLease(rows[i], worker, Expiry(now, ttlSec)));
    GrantKeepsDisjointIff(rows, i, worker, now, Expiry(now, ttlSec));
  }

  /** The same for leasing one named ticket. */
  lemma DirectLeaseKeepsDisjointIff(rows: seq<Ticket>, id: string, worker: string, now: int, ttlSec: int)
    requires ValidRows(rows) && Disjoint(rows, now)
    requires Get(rows, id).Some? && Candidate(Get(rows, id).value, worker, now)
    ensures Disjoint(LeaseOne(rows, id, worker, now, ttlSec), now) <==> !Conflicted(rows, Get(rows, id).value, now)
  {
    var i :| 0 <= i < |rows| && rows[i] == Get(rows, id).value;
    PutAt(rows, i, WithLease(rows[i], worker, Expiry(now, ttlSec)));
    GrantKeepsDisjointIff(rows, i, worker, now, Expiry(now, ttlSec));
  }

  /** A ticket that can be claimed at once. */
  predicate Unclaimed(t: Ticket) {
    Stored(t) == t && t.status == Ready && t.metadata.lease.None? && Dependencies(t) == []
  }

  function Working(t: Ticket, worker: string, expiresAt: int): Ticket {
    WithLease(t, worker, expiresAt).(status := InProgress)
  }

  lemma FirstIsClaimed(a: Ticket, b: Ticket, worker: string, now: int, ttlSec: int)
    requires a.id != b.id && Stored(b) == b && Unclaimed(a) && b.metadata.lease.None?
    ensures Claim([a, b], worker, now, ttlSec).1 == [WithLease(a, worker, Expiry(now, ttlSec)), b]
  {
    var rows := [a, b];
    assert forall j :: 0 <= j < 2 ==> !LeaseActive(rows[j], now);
    assert Claimable(rows, rows[0], worker, now);
    ClaimTakesTheFirst(rows, worker, now, ttlSec);
  }

  lemma SecondIsClaimed(a: Ticket, b: Ticket, worker: string, now: int, ttlSec: int)
    requires a.id != b.id && Stored(a) == a && a.status != Ready && !LeaseActive(a, now) && Unclaimed(b)
    ensures Claim([a, b], worker, now, ttlSec).1 == [a, WithLease(b, worker, Expiry(now, ttlSec))]
  {
    var rows := [a, b];
    assert forall j :: 0 <= j < 2 ==> !LeaseActive(rows[j], now);
    assert !Claimable(rows, rows[0], worker, now) && Claimable(rows, rows[1], worker, now);
    ClaimTakesTheFirst(rows, worker, now, ttlSec);
  }

  lemma SaveFirst(a: Ticket, b: Ticket, t: Ticket)
    requires a.id != b.id && t.id == a.id && Stored(t) == t
    ensures Put([a, b], t) == [t, b] && Get([a, b], t.id) == Some(a)
  {
  }

  /** An allowed run from one state to another. */
  predicate LeadsTo(s: State, steps: seq<Step>, last: State) {
    AllowedRun(s, steps) && Final(s, steps) == last
  }

  lemma StepBefore(s: State, step: Step, next: State, later: seq<Step>, last: State)
    requires Allowed(s, step) && Next(s, step) == next && LeadsTo(next, later, last)
    ensures LeadsTo(s, [step] + later, last)
  {
    assert ([step] + later)[1..] == later;
  }

  /** The first of two tickets is claimed and worked on past its lease; then the second one is claimed. */
  function LateSteps(a: Ticket, worker: string, other: string, now: int, ttlSec: int): seq<Step> {
    [ClaimNext(worker, ttlSec)] + ([Edit(Working(a, worker, Expiry(now, ttlSec)))] + WaitAndClaim(other, ttlSec))
  }

  function WaitAndClaim(other: string, ttlSec: int): seq<Step> {
    [Advance(Max(1, ttlSec))] + ([ClaimNext(other, ttlSec)] + [])
  }

  lemma WaitAndClaimLeadsTo(a: Ticket, b: Ticket, other: string, now: int, ttlSec: int)
    requires a.id != b.id && Stored(a) == a && a.status != Ready && Unclaimed(b)
    requires a.metadata.lease.Some? && a.metadata.lease.value.expiresAt == Expiry(now, ttlSec)
    ensures var late := Expiry(now, ttlSec);
            LeadsTo(State([a, b], now), WaitAndClaim(other, ttlSec),
                    State([a, WithLease(b, other, Expiry(late, ttlSec))], late))
  {
    var late := Expiry(now, ttlSec);
    var claimed := State([a, WithLease(b, other, Expiry(late, ttlSec))], late);
    SecondIsClaimed(a, b, other, late, ttlSec);
    assert LeadsTo(claimed, [], claimed);
    StepBefore(State([a, b], late), ClaimNext(other, ttlSec), claimed, [], claimed);
    StepBefore(State([a, b], now), Advance(Max(1, ttlSec)), State([a, b], late), [ClaimNext(other, ttlSec)] + [],
      claimed);
  }

  lemma LateStepsLeadTo(a: Ticket, b: Ticket, worker: string, other: string, now: int, ttlSec: int)
    requires a.id != b.id && Unclaimed(a) && Unclaimed(b)
    ensures var late := Expiry(now, ttlSec);
            LeadsTo(State([a, b], now), LateSteps(a, worker, other, now, ttlSec),
                    State([Working(a, worker, late), WithLease(b, other, Expiry(late, ttlSec))], late))
  {
    var late := Expiry(now, ttlSec);
    var leased, working := WithLease(a, worker, late), Working(a, worker, late);
    var last := State([working, WithLease(b, other, Expiry(late, ttlSec))], late);
    WaitAndClaimLeadsTo(working, b, other, now, ttlSec);
    SaveFirst(leased, b, working);
    StepBefore(State([leased, b], now), Edit(working), State([working, b], now), WaitAndClaim(other, ttlSec), last);
    FirstIsClaimed(a, b, worker, now, ttlSec);
    StepBefore(State([a, b], now), ClaimNext(worker, ttlSec), State([leased, b], now),
               [Edit(working)] + WaitAndClaim(other, ttlSec), last);
  }

  /** The lapsed lease of the first of two tickets is renewed while the second one is leased. */
  lemma RenewalOverlaps(a: Ticket, b: Ticket, worker: string, now: int, ttlSec: int)
    requires a.id != b.id && Stored(a) == a && Stored(b) == b && SharesFiles(a, b)
    requires a.metadata.lease.Some? && a.metadata.lease.value.workerId == worker && !LeaseActive(a, now)
        && LeaseActive(b, now)
    ensures Disjoint([a, b], now) && !Disjoint(Renew([a, b], a.id, worker, now, ttlSec), now)
  {
    var rows := [a, b];
    assert rows[0] == a && rows[1] == b;
    GetAt(rows, 0);
    assert Conflicted(rows, a, now);
    RenewalKeepsDisjointIff(rows, a.id, worker, now, ttlSec);
  }

  /** From any two unclaimed tickets that share a file, claims, a save and time lead to a state in which a late
      renewal makes two active leases overlap. */
  lemma LateRenewalCanOverlap(a: Ticket, b: Ticket, worker: string, other: string, now: int, ttlSec: int)
    returns (s: State)
    requires a.id != b.id && Unclaimed(a) && Unclaimed(b) && SharesFiles(a, b)
    ensures LeadsTo(State([a, b], now), LateSteps(a, worker, other, now, ttlSec), s)
    ensures Disjoint(s.rows, s.now) && !Disjoint(Renew(s.rows, a.id, worker, s.now, ttlSec), s.now)
  {
    var late := Expiry(now, ttlSec);
    var working, leased := Working(a, worker, late), WithLease(b, other, Expiry(late, ttlSec));
    LateStepsLeadTo(a, b, worker, other, now, ttlSec);
    s := State([working, leased], late);
    SharingNeedsOnlyFiles(a, working, b);
    SharingNeedsOnlyFiles(b, leased, working);
    RenewalOverlaps(working, leased, worker, late, ttlSec);
  }

  /** A ticket that is claimed and split before its worker starts on it leaves overlapping leases. */
  lemma SplitOfClaimedOverlaps(a: Ticket, worker: string, now: int, ttlSec: int, ids: seq<string>)
    requires Unclaimed(a) && a.targetFiles != [] && CanName([a], a, ids)
    ensures var claimed := WithLease(a, worker, Expiry(now, ttlSec));
            && Next(State([a], now), ClaimNext(worker, ttlSec)) == State([claimed], now)
            && Disjoint([claimed], now)
            && !Disjoint(SplitRows([claimed], claimed, ids, 1), now)
  {
    var rows, claimed := [a], WithLease(a, worker, Expiry(now, ttlSec));
    assert !LeaseActive(rows[0], now) && Claimable(rows, rows[0], worker, now);
    ClaimTakesTheFirst(rows, worker, now, ttlSec);
    assert rows[0 := claimed] == [claimed];
    SplitKeepsDisjointIff([claimed], claimed, ids, 1, now);
  }

  function Sample(id: string): Ticket {
    Ticket(id, Ready, [], [], ["calc.py"], [], Execution("m", 3, 0),
           Metadata(None, GitTrail(false, false, false, false), false, None, false, Decisions(false, false, false)))
  }

  /** There are such tickets. */
  lemma SampleIsUnclaimed()
    ensures var a, b := Sample("T-001"), Sample("T-002");
            a.id != b.id && Unclaimed(a) && Unclaimed(b) && SharesFiles(a, b)
  {
    assert "T-001"[4] != "T-002"[4];
    assert "calc.py" in Sample("T-001").targetFiles && "calc.py" in Sample("T-002").targetFiles;
  }

  // ---------- The steps, told by the columns ----------

  /** The row of a ticket of this id after a renewal or a release. */
  predicate LeaseReplaced(before: Ticket, after: Ticket, applies: bool, lease: Option<Lease>) {
    after == if applies then before.(metadata := before.metadata.(lease := lease)) else before
  }

  predicate NamedBy(t: Ticket, worker: string) {
    t.metadata.lease.Some? && t.metadata.lease.value.workerId == worker
  }

  /** A copy of the parent, lease included, for one of its files: in backlog, awaiting approval, without the
      dependencies of the first list, and with the snapshots of that file, or with all when there are none. */
  ghost predicate IsChild(t: Ticket, c: Ticket, id: string, file: string) {
    && c == t.(id := id, status := Backlog, dependencies := [], targetFiles := [file], contextFiles := c.contextFiles,
               metadata := c.metadata)
    && c.metadata.lease == t.metadata.lease && c.metadata.git == t.metadata.git
    && !c.metadata.abandoned && c.metadata.decisions == t.metadata.decisions.(needsApproval := true)
    && c.metadata.orphanedFrom == t.metadata.orphanedFrom && c.metadata.orphanReason == t.metadata.orphanReason
    && if exists f :: f in t.contextFiles && f.path == file
       then forall f :: f in c.contextFiles <==> f in t.contextFiles && f.path == file
       else c.contextFiles == t.contextFiles
  }

  /** The parent waits for no approval any more and is split; the children stand where they were created. */
  ghost predicate IsSplitUp(rows: seq<Ticket>, t: Ticket, ids: seq<string>, position: nat, after: seq<Ticket>)
    requires |ids| == |t.targetFiles| && position <= |rows|
  {
    var n := |ids|;
    && |after| == |rows| + n
    && (forall k :: 0 <= k < n ==> IsChild(t, after[position + k], ids[k], t.targetFiles[k]))
    && (forall k :: 0 <= k < |rows| ==>
          after[if k < position then k else k + n] ==
            if rows[k].id != t.id then rows[k]
            else t.(status := Split,
                    metadata := t.metadata.(decisions := t.metadata.decisions.(needsApproval := false))))
  }

  /** What a step does to the rows. */
  ghost predicate Takes(s: State, step: Step, after: seq<Ticket>)
    requires Allowed(s, step)
  {
    match step
    case ClaimNext(worker, ttlSec) =>
      exists claim :: ClaimsTheFirst(s.rows, worker, s.now, ttlSec, claim)
                      && after == if claim.ticket.Some? then Put(s.rows, claim.ticket.value) else s.rows
    case ReleaseOne(id, releaser) =>
      |after| == |s.rows| && forall k :: 0 <= k < |s.rows| ==>
        LeaseReplaced(s.rows[k], after[k],
                      s.rows[k].id == id && (releaser.None? || NamedBy(s.rows[k], releaser.value)), None)
    case RenewOne(id, worker, ttlSec) =>
      |after| == |s.rows| && forall k :: 0 <= k < |s.rows| ==>
        LeaseReplaced(s.rows[k], after[k], s.rows[k].id == id && NamedBy(s.rows[k], worker),
                      Some(Lease(worker, s.now + if ttlSec > 1 then ttlSec else 1)))
    case Advance(seconds) => after == s.rows
    case Edit(t) =>
      |after| == |s.rows| && forall k :: 0 <= k < |s.rows| ==>
        after[k] == if s.rows[k].id == t.id then Stored(t) else s.rows[k]
    case Create(t, position) => after == s.rows[..position] + [Stored(t)] + s.rows[position..]
    case SplitUp(id, newIds, position) =>
      match Get(s.rows, id)
      case None => after == s.rows
      case Some(t) =>
        if t.status == InProgress || t.status == Testing || t.status == Done || t.status == Abandoned
           || t.status == Split
        then after == s.rows
        else IsSplitUp(s.rows, t, newIds, position, after)
  }

  lemma {:induction false} SnapshotsOfHolds(files: seq<ContextFile>, path: string)
    ensures forall f :: f in SnapshotsOf(files, path) <==> f in files && f.path == path
  {
    if files != [] {
      SnapshotsOfHolds(files[1..], path);
      assert files == [files[0]] + files[1..];
    }
  }

  lemma ChildIsChild(t: Ticket, id: string, file: string)
    ensures IsChild(t, Child(t, id, file), id, file)
  {
    var own := SnapshotsOf(t.contextFiles, file);
    SnapshotsOfHolds(t.contextFiles, file);
    assert own != [] ==> own[0] in own;
  }

  lemma ChildrenStand(rows: seq<Ticket>, t: Ticket, ids: seq<string>, position: nat, k: nat)
    requires t in rows && CanName(rows, t, ids) && position <= |rows| && k < |ids|
    ensures IsChild(t, SplitRows(rows, t, ids, position)[position + k], ids[k], t.targetFiles[k])
  {
    var inserted := InsertAll(rows, Children(t, ids), position);
    assert inserted[position + k] == Child(t, ids[k], t.targetFiles[k]);
    assert Get(rows, ids[k]).None? && t.id != ids[k];
    ChildIsChild(t, ids[k], t.targetFiles[k]);
  }

  lemma OldRowsStand(rows: seq<Ticket>, t: Ticket, ids: seq<string>, position: nat, k: nat)
    requires |ids| == |t.targetFiles| && position <= |rows| && k < |rows| && !t.metadata.abandoned
    ensures SplitRows(rows, t, ids, position)[if k < position then k else k + |ids|]
            == if rows[k].id != t.id then rows[k]
               else t.(status := Split,
                       metadata := t.metadata.(decisions := t.metadata.decisions.(needsApproval := false)))
  {
    var inserted := InsertAll(rows, Children(t, ids), position);
    assert inserted[if k < position then k else k + |ids|] == rows[k];
  }

  lemma SplitIsSplitUp(rows: seq<Ticket>, t: Ticket, ids: seq<string>, position: nat)
    requires t in rows && CanName(rows, t, ids) && position <= |rows| && !t.metadata.abandoned
    ensures IsSplitUp(rows, t, ids, position, SplitRows(rows, t, ids, position))
  {
    var after := SplitRows(rows, t, ids, position);
    forall k | 0 <= k < |ids| ensures IsChild(t, after[position + k], ids[k], t.targetFiles[k]) {
      ChildrenStand(rows, t, ids, position, k);
    }
    forall k | 0 <= k < |rows|
      ensures after[if k < position then k else k + |ids|]
              == if rows[k].id != t.id then rows[k]
                 else t.(status := Split,
                         metadata := t.metadata.(decisions := t.metadata.decisions.(needsApproval := false)))
    {
      OldRowsStand(rows, t, ids, position, k);
    }
  }

  /** Every step is what the repository and the split endpoint do to the rows; only time moves the clock. */
  lemma StepsAreByTheColumns(s: State, step: Step)
    requires ValidRows(s.rows) && Allowed(s, step)
    ensures Takes(s, step, Next(s, step).rows)
    ensures Next(s, step).now == s.now + if step.Advance? then step.seconds else 0
  {
    match step
    case ClaimNext(worker, ttlSec) =>
      ClaimIsByTheColumns(s.rows, worker, s.now, ttlSec);
    case ReleaseOne(id, releaser) =>
      ReleaseIsByTheColumns(s.rows, id, releaser);
    case RenewOne(id, worker, ttlSec) =>
      RenewalIsByTheColumns(s.rows, id, worker, s.now, ttlSec);
    case SplitUp(id, newIds, position) =>
      if Get(s.rows, id).Some? && CanSplit(Get(s.rows, id).value) {
        SplitIsSplitUp(s.rows, Get(s.rows, id).value, newIds, position);
      }
    case _ =>
  }

  lemma ReleaseIsByTheColumns(rows: seq<Ticket>, id: string, releaser: Option<string>)
    requires ValidRows(rows)
    ensures forall k :: 0 <= k < |rows| ==>
              LeaseReplaced(rows[k], Release(rows, id, releaser)[k],
                            rows[k].id == id && (releaser.None? || NamedBy(rows[k], releaser.value)), None)
  {
    forall k | 0 <= k < |rows| && rows[k].id == id ensures Get(rows, id) == Some(rows[k]) {
      GetAt(rows, k);
    }
  }

  lemma RenewalIsByTheColumns(rows: seq<Ticket>, id: string, worker: string, now: int, ttlSec: int)
    requires ValidRows(rows)
    ensures forall k :: 0 <= k < |rows| ==>
              LeaseReplaced(rows[k], Renew(rows, id, worker, now, ttlSec)[k],
                            rows[k].id == id && NamedBy(rows[k], worker),
                            Some(Lease(worker, now + if ttlSec > 1 then ttlSec else 1)))
  {
    forall k | 0 <= k < |rows| && rows[k].id == id ensures Get(rows, id) == Some(rows[k]) {
      GetAt(rows, k);
    }
  }
}
