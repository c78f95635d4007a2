/** Confirming a requirement: its proposed tickets are renumbered and created one after the other. */
module Confirmation {
  import opened Basics
  import opened TicketNumbers
  import opened Renumbering

  datatype RequirementStatus = Draft | Decomposing | PreviewReady | Confirmed | Discarded

  /** Why one ticket of a batch is not created: its payload is no valid ticket, or its files cannot be read. */
  datatype Fault = InvalidTicket | UnreadableFiles

  datatype Confirmation =
    | Created(ids: seq<string>)
    | NotPreviewReady
    | NothingProposed
    | DuplicateTicket(id: string)
    | TicketFailed(index: nat, fault: Fault)

  /** The new ids of a batch, in order. */
  function BatchIds(payloads: seq<Payload>, ids: seq<string>): (r: seq<string>)
    ensures |r| == |payloads|
    ensures forall i :: 0 <= i < |r| ==> Some(r[i]) == Renumbered(payloads, ProjectNumbering(ids))[i].id
  {
    seq(|payloads|, i requires 0 <= i < |payloads| => NewId(ProjectNumbering(ids), i))
  }

  /** How many tickets are created before the first one with a fault. */
  function CreatedBefore(faults: nat -> Option<Fault>, n: nat, k: nat): (m: nat)
    requires k <= n
    ensures k <= m <= n
    ensures m < n ==> faults(m).Some?
    ensures forall j :: k <= j < m ==> faults(j).None?
    decreases n - k
  {
    if k == n || faults(k).Some? then k else CreatedBefore(faults, n, k + 1)
  }

  class RequirementsFlow {
    /** The ids of the project's tickets, in creation order. */
    var ids: seq<string>
    var status: RequirementStatus

    constructor (ids: seq<string>, status: RequirementStatus)
      ensures this.ids == ids && this.status == status
    {
      this.ids := ids;
      this.status := status;
    }

    /** The table's primary key refuses an id that is taken. */
    method Create(id: string) returns (ok: bool)
      modifies `ids
      ensures ok <==> id !in old(ids)
      ensures ids == if ok then old(ids) + [id] else old(ids)
    {
      if id in ids {
        return false;
      }
      ids := ids + [id];
      return true;
    }

    /** faults tells which of the tickets cannot be made, and why. The creation never meets a taken id. If a
        ticket cannot be made, the ones before it have been created and the requirement can still be confirmed. */
    method Confirm(payloads: seq<Payload>, faults: nat -> Option<Fault>) returns (result: Confirmation)
      modifies this
      ensures !result.DuplicateTicket?
      ensures var batch := BatchIds(payloads, old(ids));
              var m := CreatedBefore(faults, |payloads|, 0);
              if old(status) != PreviewReady then
                result == NotPreviewReady && ids == old(ids) && status == old(status)
              else if payloads == [] then
                result == NothingProposed && ids == old(ids) && status == old(status)
              else if m < |payloads| then
                result == TicketFailed(m, faults(m).value) && ids == old(ids) + batch[..m] && status == PreviewReady
              else
                result == Created(batch) && ids == old(ids) + batch && status == Confirmed
      ensures AppendsNext(old(ids), ids)
    {
      if status != PreviewReady {
        return NotPreviewReady;
      }
      if payloads == [] {
        return NothingProposed;
      }
      var renumbered := RenumberTicketPayloads(payloads, ids);
      BatchIsFree(payloads, ids);
      BatchIsNext(payloads, ids);
      var batch := BatchIds(payloads, ids);
      assert forall i :: 0 <= i < |payloads| ==> renumbered[i].id == Some(batch[i]);
      result := CreateAll(renumbered, batch, faults);
      if result.Created? {
        status := Confirmed;
      }
    }

    method CreateAll(payloads: seq<Payload>, ghost batch: seq<string>, faults: nat -> Option<Fault>)
      returns (result: Confirmation)
      requires |batch| == |payloads| && forall i :: 0 <= i < |payloads| ==> payloads[i].id == Some(batch[i])
      requires Free(ids, batch)
      modifies `ids
      ensures var m := CreatedBefore(faults, |payloads|, 0);
              && ids == old(ids) + batch[..m]
              && result == if m < |payloads| then TicketFailed(m, faults(m).value) else Created(batch)
    {
      var created: seq<string> := [];
      var k := 0;
      while k < |payloads|
        invariant 0 <= k <= |payloads|
        invariant created == batch[..k] && ids == old(ids) + batch[..k]
        invariant CreatedBefore(faults, |payloads|, 0) == CreatedBefore(faults, |payloads|, k)
      {
        if faults(k).Some? {
          return TicketFailed(k, faults(k).value);
        }
        var id := payloads[k].id.value;
        var ok := Create(id);
        if !ok {
          return DuplicateTicket(id);
        }
        created := created + [id];
        k := k + 1;
      }
      return Created(created);
    }
  }

  /** The ids added are those of the numbers from the next one on. */
  ghost predicate AppendsNext(before: seq<string>, after: seq<string>) {
    && before <= after
    && forall first: nat :: IsNext(before, first) ==>
         forall i :: |before| <= i < |after| ==> after[i] == TicketId(first + i - |before|)
  }

  lemma BatchIsNext(payloads: seq<Payload>, ids: seq<string>)
    ensures forall m :: 0 <= m <= |payloads| ==> AppendsNext(ids, ids + BatchIds(payloads, ids)[..m])
  {
    var batch := BatchIds(payloads, ids);
    NextIsNext(ids);
    forall first: nat | IsNext(ids, first) ensures first == NextNumber(ids) {
      OneNext(ids, first, NextNumber(ids));
    }
  }

  lemma OneNext(ids: seq<string>, a: nat, b: nat)
    requires IsNext(ids, a) && IsNext(ids, b)
    ensures a == b
  {
  }

  predicate Free(ids: seq<string>, batch: seq<string>) {
    NoDuplicates(batch) && forall k :: 0 <= k < |batch| ==> batch[k] !in ids
  }

  /** The ids of a batch are neither in use nor used twice. */
  lemma BatchIsFree(payloads: seq<Payload>, ids: seq<string>)
    ensures Free(ids, BatchIds(payloads, ids))
  {
    var batch := BatchIds(payloads, ids);
    forall k | 0 <= k < |batch| ensures batch[k] !in ids {
      BatchIdsAreFresh(payloads, ids, k, k);
    }
    forall i, j | 0 <= i < j < |batch| ensures batch[i] != batch[j] {
      BatchIdsAreFresh(payloads, ids, i, j);
    }
  }
}
