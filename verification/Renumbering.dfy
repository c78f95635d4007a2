/** Giving a batch of proposed tickets fresh ids, and what becomes of the dependencies between them. */
module Renumbering {
  import opened Basics
  import opened Graphs
  import opened TicketNumbers

  /** A proposed ticket: its id if it has one, its two dependency lists, and where it was proposed from. */
  datatype Payload = Payload(
    id: Option<string>, dependencies: seq<string>, dependsOn: seq<string>, source: Option<string>)

  /** The ids given to the batch: name(first), name(first + 1), and so on. */
  datatype Numbering = Numbering(name: nat -> string, first: nat)

  function NewId(num: Numbering, i: nat): string {
    num.name(num.first + i)
  }

  ghost predicate NamesDiffer(num: Numbering) {
    forall m: nat, n: nat :: num.name(m) == num.name(n) ==> m == n
  }

  function ProjectNumbering(ids: seq<string>): Numbering {
    Numbering(TicketId, NextNumber(ids))
  }

  // ---------- The transformation ----------

  /** Which new id each original id gets; of equal original ids, the last one counts. */
  function IdMap(payloads: seq<Payload>, num: Numbering, k: nat): map<string, string>
    requires k <= |payloads|
  {
    if k == 0 then map[]
    else
      var idMap := IdMap(payloads, num, k - 1);
      match payloads[k - 1].id
      case None => idMap
      case Some(id) => idMap[id := NewId(num, k - 1)]
  }

  /** id_map.get(dependency, dependency) */
  function Mapped(idMap: map<string, string>, dependency: string): string {
    if dependency in idMap then idMap[dependency] else dependency
  }

  function MapAll(idMap: map<string, string>, dependencies: seq<string>): (r: seq<string>)
    ensures |r| == |dependencies| && forall k :: 0 <= k < |r| ==> r[k] == Mapped(idMap, dependencies[k])
  {
    seq(|dependencies|, k requires 0 <= k < |dependencies| => Mapped(idMap, dependencies[k]))
  }

  function BothLists(p: Payload): seq<string> {
    p.dependencies + p.dependsOn
  }

  function Numbered(p: Payload, id: string): Payload {
    p.(id := Some(id), source := if p.id.Some? && p.source.None? then p.id else p.source)
  }

  function WithDependencies(p: Payload, merged: seq<string>): Payload {
    if merged == [] then p else p.(dependencies := merged, dependsOn := merged)
  }

  function RenumberedAt(payloads: seq<Payload>, num: Numbering, i: nat): Payload
    requires i < |payloads|
  {
    var idMap := IdMap(payloads, num, |payloads|);
    WithDependencies(Numbered(payloads[i], NewId(num, i)), Distinct(MapAll(idMap, BothLists(payloads[i]))))
  }

  function Renumbered(payloads: seq<Payload>, num: Numbering): (r: seq<Payload>)
    ensures |r| == |payloads| && forall i :: 0 <= i < |r| ==> r[i] == RenumberedAt(payloads, num, i)
  {
    seq(|payloads|, i requires 0 <= i < |payloads| => RenumberedAt(payloads, num, i))
  }

  /** What a dependency becomes when the batch is numbered from first: the new id of the last payload that had
      this id or, if none had it, itself. */
  ghost predicate Becomes(payloads: seq<Payload>, first: nat, d: string, x: string) {
    || (x == d && forall i :: 0 <= i < |payloads| ==> payloads[i].id != Some(d))
    || (exists i :: 0 <= i < |payloads| && payloads[i].id == Some(d) && x == TicketId(first + i)
                    && forall j :: i < j < |payloads| ==> payloads[j].id != Some(d))
  }

  /** The payload with its new id, a note of where it came from unless it had one, and its dependencies renamed. */
  ghost predicate IsRenumbered(payloads: seq<Payload>, first: nat, i: nat, p: Payload)
    requires i < |payloads|
  {
    && p.id == Some(TicketId(first + i))
    && p.source == (if payloads[i].source.Some? then payloads[i].source else payloads[i].id)
    && p.dependencies == p.dependsOn && NoDuplicates(p.dependencies)
    && forall x :: x in p.dependencies <==>
         exists d :: (d in payloads[i].dependencies || d in payloads[i].dependsOn) && Becomes(payloads, first, d, x)
  }

  lemma {:induction false} MappedIsTheLast(payloads: seq<Payload>, num: Numbering, k: nat, d: string)
    requires k <= |payloads| && num.name == TicketId
    ensures Becomes(payloads[..k], num.first, d, Mapped(IdMap(payloads, num, k), d))
    ensures forall x :: Becomes(payloads[..k], num.first, d, x) ==> x == Mapped(IdMap(payloads, num, k), d)
  {
    if k > 0 {
      MappedIsTheLast(payloads, num, k - 1, d);
      OneMoreBecomes(payloads, num, k, d);
    }
  }

  lemma OneMoreBecomes(payloads: seq<Payload>, num: Numbering, k: nat, d: string)
    requires 0 < k <= |payloads| && num.name == TicketId
    ensures forall x :: Becomes(payloads[..k], num.first, d, x)
              <==> if payloads[k - 1].id == Some(d) then x == NewId(num, k - 1)
                   else Becomes(payloads[..k - 1], num.first, d, x)
    ensures Mapped(IdMap(payloads, num, k), d) ==
              if payloads[k - 1].id == Some(d) then NewId(num, k - 1) else Mapped(IdMap(payloads, num, k - 1), d)
  {
    var all, fewer, last := payloads[..k], payloads[..k - 1], k - 1;
    assert all == fewer + [payloads[last]];
    forall x ensures Becomes(all, num.first, d, x)
      <==> if payloads[last].id == Some(d) then x == NewId(num, last) else Becomes(fewer, num.first, d, x)
    {
      if payloads[last].id == Some(d) {
        assert all[last].id == Some(d);
      } else {
        assert forall i :: 0 <= i < last ==> all[i] == fewer[i];
      }
    }
  }

  lemma RenumberingMeans(payloads: seq<Payload>, num: Numbering, i: nat)
    requires i < |payloads| && num.name == TicketId
    ensures IsRenumbered(payloads, num.first, i, RenumberedAt(payloads, num, i))
  {
    var p := RenumberedAt(payloads, num, i);
    ListsOfRenumbered(payloads, num, i);
    assert payloads[..|payloads|] == payloads;
    forall x ensures x in p.dependencies <==>
      exists d :: (d in payloads[i].dependencies || d in payloads[i].dependsOn) && Becomes(payloads, num.first, d, x)
    {
      if x in p.dependencies {
        var b := RenumberedDependency(payloads, num, i, x);
        MappedIsTheLast(payloads, num, |payloads|, b);
      }
      if d :| (d in payloads[i].dependencies || d in payloads[i].dependsOn) && Becomes(payloads, num.first, d, x) {
        MappedIsTheLast(payloads, num, |payloads|, d);
        DependencyIsRenumbered(payloads, num, i, d);
      }
    }
  }

  method RenumberTicketPayloads(payloads: seq<Payload>, projectIds: seq<string>) returns (renumbered: seq<Payload>)
    ensures renumbered == Renumbered(payloads, ProjectNumbering(projectIds))
    ensures |renumbered| == |payloads|
    ensures exists first ::
              IsNext(projectIds, first)
              && forall i :: 0 <= i < |payloads| ==> IsRenumbered(payloads, first, i, renumbered[i])
  {
    var first := NextTicketNumber(projectIds);
    forall i | 0 <= i < |payloads|
      ensures IsRenumbered(payloads, first, i, RenumberedAt(payloads, Numbering(TicketId, first), i))
    {
      RenumberingMeans(payloads, Numbering(TicketId, first), i);
    }
    renumbered := RenumberFrom(payloads, Numbering(TicketId, first));
  }

  method RenumberFrom(payloads: seq<Payload>, num: Numbering) returns (renumbered: seq<Payload>)
    ensures renumbered == Renumbered(payloads, num)
  {
    var nextNumber := num.first;
    var idMap: map<string, string> := map[];
    renumbered := [];
    for k := 0 to |payloads|
      invariant nextNumber == num.first + k
      invariant idMap == IdMap(payloads, num, k)
      invariant |renumbered| == k && forall i :: 0 <= i < k ==> renumbered[i] == Numbered(payloads[i], NewId(num, i))
    {
      var payload := payloads[k];
      var newId := num.name(nextNumber);
      nextNumber := nextNumber + 1;
      if payload.id.Some? {
        idMap := idMap[payload.id.value := newId];
        if payload.source.None? {
          payload := payload.(source := payload.id);
        }
      }
      renumbered := renumbered + [payload.(id := Some(newId))];
    }
    for k := 0 to |payloads|
      invariant |renumbered| == |payloads|
      invariant forall i :: 0 <= i < k ==> renumbered[i] == RenumberedAt(payloads, num, i)
      invariant forall i :: k <= i < |payloads| ==> renumbered[i] == Numbered(payloads[i], NewId(num, i))
    {
      var merged := MergeDependencies(idMap, BothLists(renumbered[k]));
      renumbered := renumbered[k := WithDependencies(renumbered[k], merged)];
    }
  }

  method MergeDependencies(idMap: map<string, string>, dependencies: seq<string>) returns (merged: seq<string>)
    ensures merged == Distinct(MapAll(idMap, dependencies))
  {
    merged := [];
    for k := 0 to |dependencies|
      invariant merged == Distinct(MapAll(idMap, dependencies)[..k])
    {
      var mapped := Mapped(idMap, dependencies[k]);
      assert MapAll(idMap, dependencies)[..k + 1][..k] == MapAll(idMap, dependencies)[..k];
      if mapped !in merged {
        merged := merged + [mapped];
      }
    }
    assert MapAll(idMap, dependencies)[..|dependencies|] == MapAll(idMap, dependencies);
  }

  // ---------- Fresh ids ----------

  lemma IdAtPosition(payloads: seq<Payload>, ids: seq<string>, i: nat)
    requires i < |payloads|
    ensures Renumbered(payloads, ProjectNumbering(ids))[i].id == Some(TicketId(NextNumber(ids) + i))
  {
  }

  lemma OtherNumberOtherId(m: nat, n: nat)
    requires m != n
    ensures TicketId(m) != TicketId(n)
  {
    TicketIdRoundTrip(m);
    TicketIdRoundTrip(n);
  }

  /** The batch gets pairwise different ids, none of them in use in the project. */
  lemma BatchIdsAreFresh(payloads: seq<Payload>, ids: seq<string>, i: nat, j: nat)
    requires i < |payloads| && j < |payloads|
    ensures var r := Renumbered(payloads, ProjectNumbering(ids));
            && r[i].id.Some? && r[i].id.value !in ids
            && (i != j ==> r[i].id != r[j].id)
  {
    IdAtPosition(payloads, ids, i);
    IdAtPosition(payloads, ids, j);
    NewIdsAreFresh(ids, NextNumber(ids) + i);
    if i != j {
      OtherNumberOtherId(NextNumber(ids) + i, NextNumber(ids) + j);
    }
  }

  lemma ProjectNamesDiffer(ids: seq<string>)
    ensures NamesDiffer(ProjectNumbering(ids))
  {
    forall m: nat, n: nat | TicketId(m) == TicketId(n) ensures m == n {
      if m != n {
        OtherNumberOtherId(m, n);
      }
    }
  }

  // ---------- The dependency graph ----------

  /** Every payload has an id of its own. */
  predicate Identified(payloads: seq<Payload>) {
    && (forall i :: 0 <= i < |payloads| ==> payloads[i].id.Some?)
    && (forall i, j :: 0 <= i < j < |payloads| ==> payloads[i].id != payloads[j].id)
  }

  function IdAt(payloads: seq<Payload>, i: nat): string
    requires i < |payloads|
  {
    if payloads[i].id.Some? then payloads[i].id.value else ""
  }

  predicate IsOriginal(payloads: seq<Payload>, id: string) {
    exists i :: 0 <= i < |payloads| && IdAt(payloads, i) == id
  }

  predicate IsDependency(payloads: seq<Payload>, id: string) {
    exists i :: 0 <= i < |payloads| && id in BothLists(payloads[i])
  }

  predicate IsNode(payloads: seq<Payload>, id: string) {
    IsOriginal(payloads, id) || IsDependency(payloads, id)
  }

  predicate HasEdge(payloads: seq<Payload>, edge: (string, string)) {
    exists i :: 0 <= i < |payloads| && edge.0 == IdAt(payloads, i) && edge.1 in BothLists(payloads[i])
  }

  function Edges(payloads: seq<Payload>): (edges: set<(string, string)>)
    ensures forall a, b :: (a, b) in edges <==> HasEdge(payloads, (a, b))
  {
    set i, d | 0 <= i < |payloads| && d in BothLists(payloads[i]) :: (IdAt(payloads, i), d)
  }

  /** A dependency on a ticket outside the batch has one of the new ids. */
  predicate Captures(payloads: seq<Payload>, num: Numbering) {
    exists i, d :: 0 <= i < |payloads| && d == NewId(num, i) && IsDependency(payloads, d) && !IsOriginal(payloads, d)
  }

  /** What an id becomes. */
  function Rename(payloads: seq<Payload>, num: Numbering, id: string): string {
    Mapped(IdMap(payloads, num, |payloads|), id)
  }

  lemma {:induction false} IdMapIsExact(payloads: seq<Payload>, num: Numbering, k: nat)
    requires Identified(payloads) && k <= |payloads|
    ensures forall id :: id in IdMap(payloads, num, k) <==> exists i :: 0 <= i < k && IdAt(payloads, i) == id
    ensures forall i :: 0 <= i < k ==> IdMap(payloads, num, k)[IdAt(payloads, i)] == NewId(num, i)
  {
    if k > 0 {
      IdMapIsExact(payloads, num, k - 1);
      forall i | 0 <= i < k
        ensures IdAt(payloads, i) in IdMap(payloads, num, k)
            && IdMap(payloads, num, k)[IdAt(payloads, i)] == NewId(num, i)
      {
        assert i < k - 1 ==> payloads[i].id != payloads[k - 1].id;
      }
    }
  }

  /** Ids of the batch become their new ids; all others stay. */
  lemma RenameIsExact(payloads: seq<Payload>, num: Numbering)
    requires Identified(payloads)
    ensures forall i :: 0 <= i < |payloads| ==> Rename(payloads, num, IdAt(payloads, i)) == NewId(num, i)
    ensures forall id :: !IsOriginal(payloads, id) ==> Rename(payloads, num, id) == id
  {
    IdMapIsExact(payloads, num, |payloads|);
  }

  ghost predicate Injective(payloads: seq<Payload>, num: Numbering) {
    forall a, b :: IsNode(payloads, a) && IsNode(payloads, b) ==>
      (Rename(payloads, num, a) == Rename(payloads, num, b) ==> a == b)
  }

  /** Renaming keeps all nodes of the graph apart exactly when no outside dependency has one of the new ids. */
  lemma InjectiveIff(payloads: seq<Payload>, num: Numbering)
    requires Identified(payloads) && NamesDiffer(num)
    ensures Injective(payloads, num) <==> !Captures(payloads, num)
  {
    RenameIsExact(payloads, num);
    if Captures(payloads, num) {
      var i, d :| 0 <= i < |payloads| && d == NewId(num, i) && IsDependency(payloads, d) && !IsOriginal(payloads, d);
      assert IsOriginal(payloads, IdAt(payloads, i));
      assert Rename(payloads, num, IdAt(payloads, i)) == Rename(payloads, num, d);
    } else {
      forall a, b | IsNode(payloads, a) && IsNode(payloads, b) && Rename(payloads, num, a) == Rename(payloads, num, b)
        ensures a == b
      {
        NodesStayApart(payloads, num, a, b);
      }
    }
  }

  lemma NodesStayApart(payloads: seq<Payload>, num: Numbering, a: string, b: string)
    requires Identified(payloads) && NamesDiffer(num) && !Captures(payloads, num)
    requires IsNode(payloads, a) && IsNode(payloads, b) && Rename(payloads, num, a) == Rename(payloads, num, b)
    ensures a == b
  {
    RenameIsExact(payloads, num);
    if IsOriginal(payloads, a) && IsOriginal(payloads, b) {
      var i :| 0 <= i < |payloads| && IdAt(payloads, i) == a;
      var j :| 0 <= j < |payloads| && IdAt(payloads, j) == b;
      assert NewId(num, i) == NewId(num, j);
    } else if IsOriginal(payloads, a) {
      OutsiderIsNotRenamedTo(payloads, num, a, b);
    } else if IsOriginal(payloads, b) {
      OutsiderIsNotRenamedTo(payloads, num, b, a);
    }
  }

  lemma OutsiderIsNotRenamedTo(payloads: seq<Payload>, num: Numbering, original: string, outsider: string)
    requires Identified(payloads) && !Captures(payloads, num) && IsOriginal(payloads, original)
    requires IsDependency(payloads, outsider) && !IsOriginal(payloads, outsider)
    ensures Rename(payloads, num, original) != outsider
  {
    RenameIsExact(payloads, num);
    var i :| 0 <= i < |payloads| && IdAt(payloads, i) == original;
    assert outsider != NewId(num, i);
  }

  /** The new edges are the renamed old ones. */
  lemma EdgesAreRenamed(payloads: seq<Payload>, num: Numbering, x: string, y: string)
    requires Identified(payloads)
    ensures (x, y) in Edges(Renumbered(payloads, num))
      <==> exists a, b :: (a, b) in Edges(payloads) && Rename(payloads, num, a) == x && Rename(payloads, num, b) == y
  {
    RenameIsExact(payloads, num);
    var r := Renumbered(payloads, num);
    if (x, y) in Edges(r) {
      var i :| 0 <= i < |r| && x == IdAt(r, i) && y in BothLists(r[i]);
      var b := RenumberedDependency(payloads, num, i, y);
      assert HasEdge(payloads, (IdAt(payloads, i), b));
    }
    if a, b :| (a, b) in Edges(payloads) && Rename(payloads, num, a) == x && Rename(payloads, num, b) == y {
      var i :| 0 <= i < |payloads| && a == IdAt(payloads, i) && b in BothLists(payloads[i]);
      DependencyIsRenumbered(payloads, num, i, b);
      assert HasEdge(r, (x, y));
    }
  }

  /** Both lists of a renumbered payload hold the same renamed dependencies, each once, unless there are none. */
  lemma ListsOfRenumbered(payloads: seq<Payload>, num: Numbering, i: nat)
    requires i < |payloads|
    ensures var p := RenumberedAt(payloads, num, i);
            var merged := Distinct(MapAll(IdMap(payloads, num, |payloads|), BothLists(payloads[i])));
            p.dependencies == merged && p.dependsOn == merged
  {
    var renamed := MapAll(IdMap(payloads, num, |payloads|), BothLists(payloads[i]));
    var merged := Distinct(renamed);
    assert renamed != [] ==> renamed[0] in merged;
    assert |BothLists(payloads[i])| == |renamed|;
    if merged == [] {
      assert payloads[i].dependencies == [] && payloads[i].dependsOn == [];
    }
  }

  lemma RenumberedDependency(payloads: seq<Payload>, num: Numbering, i: nat, y: string) returns (b: string)
    requires i < |payloads| && y in BothLists(RenumberedAt(payloads, num, i))
    ensures b in BothLists(payloads[i]) && Rename(payloads, num, b) == y
  {
    ListsOfRenumbered(payloads, num, i);
    var renamed := MapAll(IdMap(payloads, num, |payloads|), BothLists(payloads[i]));
    var k :| 0 <= k < |renamed| && renamed[k] == y;
    b := BothLists(payloads[i])[k];
  }

  lemma DependencyIsRenumbered(payloads: seq<Payload>, num: Numbering, i: nat, b: string)
    requires i < |payloads| && b in BothLists(payloads[i])
    ensures Rename(payloads, num, b) in BothLists(RenumberedAt(payloads, num, i))
  {
    ListsOfRenumbered(payloads, num, i);
    var k :| 0 <= k < |BothLists(payloads[i])| && BothLists(payloads[i])[k] == b;
    assert MapAll(IdMap(payloads, num, |payloads|), BothLists(payloads[i]))[k] == Rename(payloads, num, b);
  }

  /** Without capture, the renumbered graph is the same graph: nodes stay apart, and two of them are joined
      afterwards exactly when they were before. */
  lemma RenumberingIsAnIsomorphism(payloads: seq<Payload>, num: Numbering, a: string, b: string)
    requires Identified(payloads) && NamesDiffer(num) && !Captures(payloads, num)
    requires IsNode(payloads, a) && IsNode(payloads, b)
    ensures (a, b) in Edges(payloads)
      <==> (Rename(payloads, num, a), Rename(payloads, num, b)) in Edges(Renumbered(payloads, num))
    ensures Rename(payloads, num, a) == Rename(payloads, num, b) ==> a == b
  {
    InjectiveIff(payloads, num);
    var x, y := Rename(payloads, num, a), Rename(payloads, num, b);
    EdgesAreRenamed(payloads, num, x, y);
    if (x, y) in Edges(Renumbered(payloads, num)) {
      var c, d :| (c, d) in Edges(payloads) && Rename(payloads, num, c) == x && Rename(payloads, num, d) == y;
      EdgesJoinNodes(payloads, c, d);
    }
  }

  lemma EdgesJoinNodes(payloads: seq<Payload>, a: string, b: string)
    requires (a, b) in Edges(payloads)
    ensures IsNode(payloads, a) && IsNode(payloads, b)
  {
    assert HasEdge(payloads, (a, b));
    var i :| 0 <= i < |payloads| && a == IdAt(payloads, i) && b in BothLists(payloads[i]);
  }

  // ---------- Cycles ----------

  /** Without capture, renumbering neither makes nor breaks a cycle. */
  lemma CyclesAreKept(payloads: seq<Payload>, num: Numbering)
    requires Identified(payloads) && NamesDiffer(num) && !Captures(payloads, num)
    ensures Acyclic(Edges(payloads)) <==> Acyclic(Edges(Renumbered(payloads, num)))
  {
    var f := (id: string) => Rename(payloads, num, id);
    var before, after := Edges(payloads), Edges(Renumbered(payloads, num));
    InjectiveIff(payloads, num);
    forall a | Endpoint(before, a) ensures IsNode(payloads, a) {
      var b :| (a, b) in before || (b, a) in before;
      if (a, b) in before {
        EdgesJoinNodes(payloads, a, b);
      } else {
        EdgesJoinNodes(payloads, b, a);
      }
    }
    forall a, b | (a, b) in before ensures (f(a), f(b)) in after {
      EdgesAreRenamed(payloads, num, f(a), f(b));
    }
    forall x, y | (x, y) in after ensures Covered(before, f, x, y) {
      EdgesAreRenamed(payloads, num, x, y);
      var a, b :| (a, b) in before && Rename(payloads, num, a) == x && Rename(payloads, num, b) == y;
      assert f(a) == x && f(b) == y;
    }
    RenamingKeepsCycles(before, f, after);
  }

  // ---------- Order ----------

  lemma {:induction false} DistinctOfRenamed(payloads: seq<Payload>, num: Numbering, s: seq<string>)
    requires Injective(payloads, num) && forall k :: 0 <= k < |s| ==> IsNode(payloads, s[k])
    ensures var m := IdMap(payloads, num, |payloads|);
            Distinct(MapAll(m, s)) == MapAll(m, Distinct(s))
  {
    var m := IdMap(payloads, num, |payloads|);
    if s != [] {
      var shorter, last := s[..|s| - 1], s[|s| - 1];
      DistinctOfRenamed(payloads, num, shorter);
      assert MapAll(m, s)[..|s| - 1] == MapAll(m, shorter);
      var d := Distinct(shorter);
      assert last in d <==> Mapped(m, last) in MapAll(m, d) by {
        if Mapped(m, last) in MapAll(m, d) {
          var k :| 0 <= k < |d| && Mapped(m, d[k]) == Mapped(m, last);
          assert d[k] in shorter;
          assert Rename(payloads, num, d[k]) == Rename(payloads, num, last);
        }
        if last in d {
          var k :| 0 <= k < |d| && d[k] == last;
          assert MapAll(m, d)[k] == Mapped(m, last);
        }
      }
      assert MapAll(m, d + [last]) == MapAll(m, d) + [Mapped(m, last)];
    }
  }

  /** Without capture, each ticket keeps its dependencies, each once, in the order they were first named. */
  lemma DependenciesKeepTheirOrder(payloads: seq<Payload>, num: Numbering, i: nat)
    requires Identified(payloads) && NamesDiffer(num) && !Captures(payloads, num) && i < |payloads|
    ensures var p := Renumbered(payloads, num)[i];
            && p.dependencies == p.dependsOn
            && p.dependencies == MapAll(IdMap(payloads, num, |payloads|), Distinct(BothLists(payloads[i])))
  {
    InjectiveIff(payloads, num);
    ListsOfRenumbered(payloads, num, i);
    forall k | 0 <= k < |BothLists(payloads[i])| ensures IsNode(payloads, BothLists(payloads[i])[k]) {
      assert BothLists(payloads[i])[k] in BothLists(payloads[i]);
    }
    DistinctOfRenamed(payloads, num, BothLists(payloads[i]));
  }

  // ---------- Capture ----------

  /** Dependencies on tickets of the project are never captured: only names of no ticket at all can be. */
  lemma ExistingTicketsAreNotCaptured(payloads: seq<Payload>, ids: seq<string>)
    requires forall d :: IsDependency(payloads, d) ==> IsOriginal(payloads, d) || d in ids
    ensures !Captures(payloads, ProjectNumbering(ids))
  {
    var num := ProjectNumbering(ids);
    forall i, d | 0 <= i < |payloads| && d == NewId(num, i) && IsDependency(payloads, d) && !IsOriginal(payloads, d)
      ensures false
    {
      NewIdsAreFresh(ids, num.first + i);
    }
  }

  /** The renumbered batch has the same dependency graph under its new names: nodes stay apart, edges and cycles
      correspond, and every ticket's dependencies keep their order. */
  ghost predicate SameGraph(payloads: seq<Payload>, num: Numbering) {
    && Injective(payloads, num)
    && (forall a, b :: IsNode(payloads, a) && IsNode(payloads, b) ==>
          ((a, b) in Edges(payloads)
           <==> (Rename(payloads, num, a), Rename(payloads, num, b)) in Edges(Renumbered(payloads, num))))
    && (Acyclic(Edges(payloads)) <==> Acyclic(Edges(Renumbered(payloads, num))))
    && (forall i :: 0 <= i < |payloads| ==> KeepsOrder(payloads, num, i))
  }

  predicate KeepsOrder(payloads: seq<Payload>, num: Numbering, i: nat)
    requires i < |payloads|
  {
    var p := Renumbered(payloads, num)[i];
    p.dependencies == p.dependsOn == MapAll(IdMap(payloads, num, |payloads|), Distinct(BothLists(payloads[i])))
  }

  lemma WithoutCaptureSameGraph(payloads: seq<Payload>, num: Numbering)
    requires Identified(payloads) && NamesDiffer(num) && !Captures(payloads, num)
    ensures SameGraph(payloads, num)
  {
    InjectiveIff(payloads, num);
    CyclesAreKept(payloads, num);
    forall a, b | IsNode(payloads, a) && IsNode(payloads, b)
      ensures (a, b) in Edges(payloads)
        <==> (Rename(payloads, num, a), Rename(payloads, num, b)) in Edges(Renumbered(payloads, num))
    {
      RenumberingIsAnIsomorphism(payloads, num, a, b);
    }
    forall i | 0 <= i < |payloads| ensures KeepsOrder(payloads, num, i) {
      DependenciesKeepTheirOrder(payloads, num, i);
    }
  }

  /** With the project's own numbering, a batch keeps its graph exactly when no dependency on a ticket outside
      the batch has one of the new ids. */
  lemma ProjectBatchKeepsItsGraphIff(payloads: seq<Payload>, ids: seq<string>)
    requires Identified(payloads)
    ensures SameGraph(payloads, ProjectNumbering(ids)) <==> !Captures(payloads, ProjectNumbering(ids))
  {
    var num := ProjectNumbering(ids);
    ProjectNamesDiffer(ids);
    InjectiveIff(payloads, num);
    if !Captures(payloads, num) {
      WithoutCaptureSameGraph(payloads, num);
    }
  }

  /** So it does whenever all its dependencies are on tickets of the batch or of the project. */
  lemma ClosedBatchKeepsItsGraph(payloads: seq<Payload>, ids: seq<string>)
    requires Identified(payloads)
    requires forall d :: IsDependency(payloads, d) ==> IsOriginal(payloads, d) || d in ids
    ensures SameGraph(payloads, ProjectNumbering(ids))
  {
    ExistingTicketsAreNotCaptured(payloads, ids);
    ProjectBatchKeepsItsGraphIff(payloads, ids);
  }

  /** A ticket proposed as A with a dependency on the missing T-001 becomes T-001 in an empty project, and so
      depends on itself. */
  lemma CaptureMakesACycle()
    ensures var batch := [Payload(Some("A"), ["T-001"], [], None)];
            && Identified(batch) && Acyclic(Edges(batch))
            && Captures(batch, ProjectNumbering([]))
            && !Acyclic(Edges(Renumbered(batch, ProjectNumbering([]))))
  {
    var batch := [Payload(Some("A"), ["T-001"], [], None)];
    var num := ProjectNumbering([]);
    FirstId();
    assert NewId(num, 0) == "T-001";
    assert "A"[0] != "T-001"[0];
    assert "T-001" in BothLists(batch[0]);
    assert IsDependency(batch, "T-001") && !IsOriginal(batch, "T-001");
    OneTicketIsAcyclic(batch);
    RenameIsExact(batch, num);
    assert HasEdge(batch, ("A", "T-001"));
    EdgesAreRenamed(batch, num, "T-001", "T-001");
    var loop := ["T-001", "T-001"];
    assert IsWalk(Edges(Renumbered(batch, num)), loop) && loop[0] == loop[1];
  }

  lemma FirstId()
    ensures TicketId(NextNumber([])) == "T-001"
  {
    assert Decimal(1) == "1";
    assert "0" + "1" == "01" && "0" + "01" == "001";
    assert PadToThree("001") == "001" && PadToThree("01") == "001" && PadToThree("1") == "001";
  }

  lemma OneTicketIsAcyclic(batch: seq<Payload>)
    requires |batch| == 1 && Identified(batch) && IdAt(batch, 0) !in BothLists(batch[0])
    ensures Acyclic(Edges(batch))
  {
    forall walk: seq<string> | |walk| >= 2 && IsWalk(Edges(batch), walk) ensures walk[0] != walk[|walk| - 1] {
      var n := |walk|;
      assert (walk[0], walk[1]) in Edges(batch);
      assert (walk[n - 2], walk[n - 2 + 1]) in Edges(batch);
    }
  }
}
