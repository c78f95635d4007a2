/** The graph view of a project's tickets, and its agreement with the scheduler. */
module Board {
  import opened Basics
  import opened Tickets
  import opened Leases
  import opened TicketStore

  datatype ReadyState = Terminal | NotReady | WaitingDependencies | Conflict | ReadyToClaim

  datatype Node = Node(id: string, status: TicketStatus, dependsOn: seq<string>, targetFiles: seq<string>,
                       readyState: ReadyState, leased: bool)

  datatype Edge = Edge(source: string, target: string)

  /** {ticket.id: ticket for ticket in tickets} */
  function ById(tickets: seq<Ticket>): map<string, Ticket> {
    if tickets == [] then map[] else map[tickets[0].id := tickets[0]] + ById(tickets[1..])
  }

  function ReadyStateOf(ticket: Ticket, byId: map<string, Ticket>, activeLeases: map<string, Ticket>): ReadyState {
    if ticket.status in {Done, Abandoned, Split} then Terminal
    else if ticket.status != Ready then NotReady
    else if exists d :: d in Dependencies(ticket) && (d !in byId || !DoneAndMerged(byId[d])) then WaitingDependencies
    else if exists id :: id in activeLeases && activeLeases[id].id != ticket.id && SharesFiles(ticket, activeLeases[id])
    then Conflict
    else ReadyToClaim
  }

  function NodeFrom(ticket: Ticket, byId: map<string, Ticket>, activeLeases: map<string, Ticket>): Node {
    Node(ticket.id, ticket.status, Dependencies(ticket), ticket.targetFiles,
         ReadyStateOf(ticket, byId, activeLeases), ticket.id in activeLeases)
  }

  function NodeOf(ticket: Ticket, rows: seq<Ticket>, now: int): Node {
    NodeFrom(ticket, ById(rows), ById(ActiveLeases(rows, now)))
  }

  function EdgesInto(target: string, dependencies: seq<string>): seq<Edge> {
    seq(|dependencies|, i requires 0 <= i < |dependencies| => Edge(dependencies[i], target))
  }

  function EdgesOf(tickets: seq<Ticket>, k: nat): seq<Edge>
    requires k <= |tickets|
  {
    if k == 0 then [] else EdgesOf(tickets, k - 1) + EdgesInto(tickets[k - 1].id, Dependencies(tickets[k - 1]))
  }

  /** The inner loop over one ticket's dependencies. */
  method AppendEdges(before: seq<Edge>, target: string, dependencies: seq<string>) returns (edges: seq<Edge>)
    ensures edges == before + EdgesInto(target, dependencies)
  {
    edges := before;
    for j := 0 to |dependencies|
      invariant edges == before + EdgesInto(target, dependencies[..j])
    {
      edges := edges + [Edge(dependencies[j], target)];
    }
    assert dependencies[..|dependencies|] == dependencies;
  }

  function NodesOf(tickets: seq<Ticket>, byId: map<string, Ticket>, activeLeases: map<string, Ticket>, k: nat)
    : seq<Node>
    requires k <= |tickets|
  {
    if k == 0 then []
    else NodesOf(tickets, byId, activeLeases, k - 1) + [NodeFrom(tickets[k - 1], byId, activeLeases)]
  }

  method TicketsGraph(repository: TicketRepository, now: int) returns (nodes: seq<Node>, edges: seq<Edge>)
    ensures |nodes| == |repository.rows|
    ensures forall i :: 0 <= i < |nodes| ==> nodes[i] == NodeOf(repository.rows[i], repository.rows, now)
    ensures DistinctIds(repository.rows) ==>
      forall i :: 0 <= i < |nodes| ==> ShownAsItIs(repository.rows, i, now, nodes[i])
    ensures edges == EdgesOf(repository.rows, |repository.rows|)
  {
    var tickets := repository.rows;
    var activeLeases := ById(ActiveLeases(tickets, now));
    var byId := ById(tickets);
    nodes, edges := [], [];
    for k := 0 to |tickets|
      invariant nodes == NodesOf(tickets, byId, activeLeases, k)
      invariant edges == EdgesOf(tickets, k)
    {
      var ticket := tickets[k];
      edges := AppendEdges(edges, ticket.id, Dependencies(ticket));
      nodes := nodes + [NodeFrom(ticket, byId, activeLeases)];
    }
    NodesOfAll(tickets, byId, activeLeases, |tickets|);
    if DistinctIds(tickets) {
      forall i | 0 <= i < |tickets| ensures ShownAsItIs(tickets, i, now, NodeOf(tickets[i], tickets, now)) {
        BoardIsByTheColumns(tickets, i, now);
      }
    }
  }

  lemma {:induction false} NodesOfAll(tickets: seq<Ticket>, byId: map<string, Ticket>,
                                      activeLeases: map<string, Ticket>, k: nat)
    requires k <= |tickets|
    ensures var nodes := NodesOf(tickets, byId, activeLeases, k);
            |nodes| == k && forall i :: 0 <= i < k ==> nodes[i] == NodeFrom(tickets[i], byId, activeLeases)
  {
    if k > 0 {
      NodesOfAll(tickets, byId, activeLeases, k - 1);
    }
  }

  /** The drawn edges are the dependencies, no more and no fewer. */
  lemma {:induction false} EdgesAreDependencies(tickets: seq<Ticket>, k: nat, e: Edge)
    requires k <= |tickets|
    ensures e in EdgesOf(tickets, k)
      <==> exists i :: 0 <= i < k && e.target == tickets[i].id && e.source in Dependencies(tickets[i])
  {
    if k > 0 {
      EdgesAreDependencies(tickets, k - 1, e);
      var t := tickets[k - 1];
      if e.target == t.id && e.source in Dependencies(t) {
        var i :| 0 <= i < |Dependencies(t)| && Dependencies(t)[i] == e.source;
        assert EdgesInto(t.id, Dependencies(t))[i] == e;
      }
    }
  }

  lemma {:induction false} ByIdIsGet(tickets: seq<Ticket>, id: string)
    requires DistinctIds(tickets)
    ensures id in ById(tickets) <==> Get(tickets, id).Some?
    ensures id in ById(tickets) ==> Some(ById(tickets)[id]) == Get(tickets, id)
  {
    if tickets != [] {
      ByIdIsGet(tickets[1..], id);
      if tickets[0].id == id {
        assert forall t :: t in tickets[1..] ==> t.id != id;
      }
    }
  }

  lemma {:induction false} ActiveLeasesAreDistinct(rows: seq<Ticket>, now: int)
    requires DistinctIds(rows)
    ensures DistinctIds(ActiveLeases(rows, now))
  {
    if rows != [] {
      ActiveLeasesAreDistinct(rows[1..], now);
      var later := ActiveLeases(rows[1..], now);
      forall i | 0 <= i < |later| ensures later[i].id != rows[0].id {
        assert later[i] in rows[1..];
      }
    }
  }

  lemma BoardDependencies(rows: seq<Ticket>, t: Ticket)
    requires DistinctIds(rows)
    ensures DependenciesSatisfied(rows, t)
      <==> !exists d :: d in Dependencies(t) && (d !in ById(rows) || !DoneAndMerged(ById(rows)[d]))
  {
    forall d ensures Satisfied(rows, d) <==> d in ById(rows) && DoneAndMerged(ById(rows)[d]) {
      ByIdIsGet(rows, d);
    }
  }

  lemma ActiveLeaseIsOnTheBoard(rows: seq<Ticket>, j: nat, now: int)
    requires DistinctIds(rows) && j < |rows| && LeaseActive(rows[j], now)
    ensures var active := ById(ActiveLeases(rows, now)); rows[j].id in active && active[rows[j].id] == rows[j]
  {
    var leased := ActiveLeases(rows, now);
    ActiveLeasesAreDistinct(rows, now);
    assert rows[j] in leased;
    var k :| 0 <= k < |leased| && leased[k] == rows[j];
    GetAt(leased, k);
    ByIdIsGet(leased, rows[j].id);
  }

  lemma BoardLeaseIsActive(rows: seq<Ticket>, id: string, now: int) returns (j: nat)
    requires DistinctIds(rows) && id in ById(ActiveLeases(rows, now))
    ensures j < |rows| && LeaseActive(rows[j], now) && ById(ActiveLeases(rows, now))[id] == rows[j]
  {
    var leased := ActiveLeases(rows, now);
    ActiveLeasesAreDistinct(rows, now);
    ByIdIsGet(leased, id);
    assert ById(leased)[id] in rows;
    j :| 0 <= j < |rows| && rows[j] == ById(leased)[id];
  }

  lemma BoardConflicts(rows: seq<Ticket>, t: Ticket, now: int)
    requires DistinctIds(rows)
    ensures var active := ById(ActiveLeases(rows, now));
            Conflicted(rows, t, now)
            <==> exists id :: id in active && active[id].id != t.id && SharesFiles(t, active[id])
  {
    var active := ById(ActiveLeases(rows, now));
    if Conflicted(rows, t, now) {
      var j :| 0 <= j < |rows| && LeaseActive(rows[j], now) && rows[j].id != t.id && SharesFiles(t, rows[j]);
      ActiveLeaseIsOnTheBoard(rows, j, now);
    }
    if id :| id in active && active[id].id != t.id && SharesFiles(t, active[id]) {
      var j := BoardLeaseIsActive(rows, id, now);
    }
  }

  /** The board's state in terms of what the scheduler checks. */
  lemma BoardState(rows: seq<Ticket>, i: nat, now: int)
    requires DistinctIds(rows) && i < |rows| && rows[i].status == Ready
    ensures NodeOf(rows[i], rows, now).readyState ==
      if !DependenciesSatisfied(rows, rows[i]) then WaitingDependencies
      else if Conflicted(rows, rows[i], now) then Conflict
      else ReadyToClaim
  {
    BoardDependencies(rows, rows[i]);
    BoardConflicts(rows, rows[i], now);
  }

  /** What the board shows of a ticket, told by the columns of its row and of the others. */
  ghost predicate ShownAsItIs(rows: seq<Ticket>, i: nat, now: int, node: Node)
    requires i < |rows|
  {
    var t := rows[i];
    && node.id == t.id && node.status == t.status && node.targetFiles == t.targetFiles
    && NoDuplicates(node.dependsOn)
    && (forall d :: d in node.dependsOn <==> d in t.dependencies || d in t.dependsOn)
    && (node.leased <==> t.metadata.lease.Some? && t.metadata.lease.value.expiresAt > now)
    && (node.readyState == Terminal <==> t.status == Done || t.status == Abandoned || t.status == Split)
    && (node.readyState == WaitingDependencies <==> t.status == Ready && !DependenciesMet(rows, t))
    && (node.readyState == Conflict <==> t.status == Ready && DependenciesMet(rows, t) && FilesTaken(rows, t, now))
    && (node.readyState == ReadyToClaim <==> t.status == Ready && DependenciesMet(rows, t) && !FilesTaken(rows, t, now))
  }

  lemma BoardIsByTheColumns(rows: seq<Ticket>, i: nat, now: int)
    requires DistinctIds(rows) && i < |rows|
    ensures ShownAsItIs(rows, i, now, NodeOf(rows[i], rows, now))
  {
    ColumnsDecide(rows, rows[i], "", now);
    if rows[i].status == Ready {
      BoardState(rows, i, now);
    }
    LeasedIff(rows, i, now);
  }

  lemma LeasedIff(rows: seq<Ticket>, i: nat, now: int)
    requires DistinctIds(rows) && i < |rows|
    ensures rows[i].id in ById(ActiveLeases(rows, now))
      <==> rows[i].metadata.lease.Some? && rows[i].metadata.lease.value.expiresAt > now
  {
    if LeaseActive(rows[i], now) {
      ActiveLeaseIsOnTheBoard(rows, i, now);
    }
    if rows[i].id in ById(ActiveLeases(rows, now)) {
      var j := BoardLeaseIsActive(rows, rows[i].id, now);
      ActiveLeasesAreDistinct(rows, now);
      ByIdIsGet(ActiveLeases(rows, now), rows[i].id);
      assert j == i;
    }
  }

  predicate ShowsFor(rows: seq<Ticket>, i: nat, worker: string, now: int, state: ReadyState)
    requires i < |rows|
  {
    NodeOf(rows[i], rows, now).readyState == state && !HeldByAnother(rows[i], worker, now)
  }

  lemma BoardMatchesScheduler(rows: seq<Ticket>, i: nat, worker: string, now: int)
    requires DistinctIds(rows) && i < |rows|
    ensures Claimable(rows, rows[i], worker, now) <==> ShowsFor(rows, i, worker, now, ReadyToClaim)
    ensures HeldByOverlap(rows, rows[i], worker, now) <==> ShowsFor(rows, i, worker, now, Conflict)
    ensures Waiting(rows, rows[i], worker, now) <==> ShowsFor(rows, i, worker, now, WaitingDependencies)
  {
    if rows[i].status == Ready {
      BoardState(rows, i, now);
    }
  }

  /** A worker's claim takes the oldest ticket shown as ready and not leased by someone else,
      and fails exactly when the board shows none. */
  lemma ClaimFollowsTheBoard(rows: seq<Ticket>, worker: string, now: int, ttlSec: int)
    requires ValidRows(rows)
    ensures var claim := Claim(rows, worker, now, ttlSec).0;
            match claim.ticket
            case Some(t) =>
              exists i :: 0 <= i < |rows| && t == WithLease(rows[i], worker, Expiry(now, ttlSec))
                          && ShowsFor(rows, i, worker, now, ReadyToClaim)
                          && forall j :: 0 <= j < i ==> !ShowsFor(rows, j, worker, now, ReadyToClaim)
            case None =>
              forall j :: 0 <= j < |rows| ==> !ShowsFor(rows, j, worker, now, ReadyToClaim)
  {
    ClaimTakesTheFirst(rows, worker, now, ttlSec);
    forall j | 0 <= j < |rows|
      ensures Claimable(rows, rows[j], worker, now) <==> ShowsFor(rows, j, worker, now, ReadyToClaim)
    {
      BoardMatchesScheduler(rows, j, worker, now);
    }
  }

  /** The reason given for an unsuccessful claim is what the board shows, conflicts first. */
  lemma SkipReasonFollowsTheBoard(rows: seq<Ticket>, worker: string, now: int, ttlSec: int)
    requires ValidRows(rows) && Claim(rows, worker, now, ttlSec).0.ticket.None?
    ensures var claim := Claim(rows, worker, now, ttlSec).0;
            var conflict := exists j :: 0 <= j < |rows| && ShowsFor(rows, j, worker, now, Conflict);
            var waiting := exists j :: 0 <= j < |rows| && ShowsFor(rows, j, worker, now, WaitingDependencies);
            && (claim.skippedReason == TargetFileConflict <==> conflict)
            && (claim.skippedReason == DependenciesPending <==> !conflict && waiting)
            && (claim.conflictTicketIds != [] <==> conflict)
  {
    forall j | 0 <= j < |rows|
      ensures HeldByOverlap(rows, rows[j], worker, now) <==> ShowsFor(rows, j, worker, now, Conflict)
      ensures Waiting(rows, rows[j], worker, now) <==> ShowsFor(rows, j, worker, now, WaitingDependencies)
    {
      BoardMatchesScheduler(rows, j, worker, now);
    }
  }

  function MarkedIds(rows: seq<Ticket>, marks: seq<bool>, k: nat): seq<string>
    requires k <= |rows| == |marks|
  {
    if k == 0 then []
    else MarkedIds(rows, marks, k - 1) + (if marks[k - 1] then [rows[k - 1].id] else [])
  }

  lemma {:induction false} MarkedIdsAreMarked(rows: seq<Ticket>, marks: seq<bool>, k: nat)
    requires k <= |rows| == |marks| && DistinctIds(rows)
    ensures NoDuplicates(MarkedIds(rows, marks, k))
    ensures forall id :: id in MarkedIds(rows, marks, k) <==> exists j :: 0 <= j < k && marks[j] && rows[j].id == id
  {
    if k > 0 {
      MarkedIdsAreMarked(rows, marks, k - 1);
      assert rows[k - 1].id !in MarkedIds(rows, marks, k - 1);
    }
  }

  lemma {:induction false} BlockedIdsAreMarked(rows: seq<Ticket>, worker: string, now: int, marks: seq<bool>, k: nat)
    requires k <= |rows| == |marks|
    requires forall j :: 0 <= j < |rows| ==> marks[j] == HeldByOverlap(rows, rows[j], worker, now)
    ensures BlockedIds(rows, worker, now, k) == MarkedIds(rows, marks, k)
  {
    if k > 0 {
      BlockedIdsAreMarked(rows, worker, now, marks, k - 1);
    }
  }

  /** The reported conflicts are the tickets shown as conflicting, each once. */
  lemma ConflictIdsFollowTheBoard(rows: seq<Ticket>, worker: string, now: int, ttlSec: int)
    requires ValidRows(rows) && Claim(rows, worker, now, ttlSec).0.ticket.None?
    ensures var ids := Claim(rows, worker, now, ttlSec).0.conflictTicketIds;
            NoDuplicates(ids) && forall id :: id in ids <==> ShownConflicting(rows, id, worker, now)
  {
    var marks := seq(|rows|, j requires 0 <= j < |rows| => ShowsFor(rows, j, worker, now, Conflict));
    forall j | 0 <= j < |rows| ensures marks[j] == HeldByOverlap(rows, rows[j], worker, now) {
      BoardMatchesScheduler(rows, j, worker, now);
    }
    BlockedIdsAreMarked(rows, worker, now, marks, |rows|);
    MarkedIdsAreMarked(rows, marks, |rows|);
    var ids := MarkedIds(rows, marks, |rows|);
    assert Claim(rows, worker, now, ttlSec).0.conflictTicketIds == ids;
    forall id ensures id in ids <==> ShownConflicting(rows, id, worker, now) {
      if ShownConflicting(rows, id, worker, now) {
        var j :| 0 <= j < |rows| && ShowsFor(rows, j, worker, now, Conflict) && rows[j].id == id;
        assert marks[j];
      }
    }
  }

  predicate ShownConflicting(rows: seq<Ticket>, id: string, worker: string, now: int) {
    exists j :: 0 <= j < |rows| && ShowsFor(rows, j, worker, now, Conflict) && rows[j].id == id
  }
}
