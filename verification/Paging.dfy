/** Reading an event log page by page with a cursor, while events are being appended. */
module Paging {
  import opened Basics

  datatype Event = Event(id: int, project: string, requirement: Option<string>, ticket: Option<string>)

  const MAX_LIMIT := 500
  const DEFAULT_LIMIT := 100

  function BoundedLimit(limit: Option<int>): nat {
    match limit
    case None => DEFAULT_LIMIT
    case Some(n) => Max(0, Min(n, MAX_LIMIT))
  }

  /** The WHERE clauses other than the cursor. */
  predicate Concerns(e: Event, project: string, requirement: Option<string>, ticket: Option<string>) {
    && e.project == project
    && (ticket.Some? ==> e.ticket == ticket)
    && (requirement.Some? ==> e.requirement == requirement)
  }

  /** Ids grow, from 1. */
  predicate Increasing(log: seq<Event>) {
    && (forall i :: 0 <= i < |log| ==> log[i].id > 0)
    && (forall i, j :: 0 <= i < j < |log| ==> log[i].id < log[j].id)
  }

  /** The wanted events with low < id <= high, in id order. */
  function Between(log: seq<Event>, wanted: Event -> bool, low: int, high: int): seq<Event> {
    if log == [] then []
    else
      var earlier := Between(log[..|log| - 1], wanted, low, high);
      var last := log[|log| - 1];
      if wanted(last) && low < last.id <= high then earlier + [last] else earlier
  }

  lemma {:induction false} BetweenHolds(log: seq<Event>, wanted: Event -> bool, low: int, high: int, e: Event)
    ensures e in Between(log, wanted, low, high) <==> e in log && wanted(e) && low < e.id <= high
  {
    if log != [] {
      BetweenHolds(log[..|log| - 1], wanted, low, high, e);
      assert log == log[..|log| - 1] + [log[|log| - 1]];
    }
  }

  /** The largest id, or 0. */
  function Top(log: seq<Event>): int {
    if log == [] then 0 else log[|log| - 1].id
  }

  function After(log: seq<Event>, wanted: Event -> bool, low: int): seq<Event> {
    Between(log, wanted, low, Top(log))
  }

  function Query(log: seq<Event>, wanted: Event -> bool, after: Option<int>, limit: Option<int>): seq<Event> {
    var all := After(log, wanted, if after.None? then 0 else after.value);
    all[..Min(|all|, BoundedLimit(limit))]
  }

  predicate InIdOrder(events: seq<Event>) {
    forall i, j :: 0 <= i < j < |events| ==> events[i].id < events[j].id
  }

  /** What a page is, whatever way it is found: the wanted events after the cursor in id order, up to the limit.
      Whatever it leaves out comes after a full page. */
  ghost predicate IsPage(log: seq<Event>, wanted: Event -> bool, after: Option<int>, limit: Option<int>,
                         page: seq<Event>)
  {
    && InIdOrder(page)
    && (forall e :: e in page ==> e in log && wanted(e) && (after.Some? ==> e.id > after.value))
    && |page| <= BoundedLimit(limit)
    && (forall e :: e in log && wanted(e) && (after.Some? ==> e.id > after.value) && e !in page ==>
          |page| == BoundedLimit(limit) && forall f :: f in page ==> f.id < e.id)
  }

  lemma {:induction false} BetweenIsIncreasing(log: seq<Event>, wanted: Event -> bool, low: int, high: int)
    requires Increasing(log)
    ensures InIdOrder(Between(log, wanted, low, high))
  {
    if log != [] {
      var shorter := log[..|log| - 1];
      BetweenIsIncreasing(shorter, wanted, low, high);
      var earlier := Between(shorter, wanted, low, high);
      forall i | 0 <= i < |earlier| ensures earlier[i].id < log[|log| - 1].id {
        BetweenHolds(shorter, wanted, low, high, earlier[i]);
      }
    }
  }

  lemma AfterHolds(log: seq<Event>, wanted: Event -> bool, after: Option<int>, e: Event)
    requires Increasing(log)
    ensures e in After(log, wanted, if after.None? then 0 else after.value)
      <==> e in log && wanted(e) && (after.Some? ==> e.id > after.value)
  {
    BetweenHolds(log, wanted, if after.None? then 0 else after.value, Top(log), e);
    if e in log {
      var i :| 0 <= i < |log| && log[i] == e;
      assert i < |log| - 1 ==> log[i].id < log[|log| - 1].id;
    }
  }

  lemma QueryIsPage(log: seq<Event>, wanted: Event -> bool, after: Option<int>, limit: Option<int>)
    requires Increasing(log)
    ensures IsPage(log, wanted, after, limit, Query(log, wanted, after, limit))
  {
    var low := if after.None? then 0 else after.value;
    var all, page := After(log, wanted, low), Query(log, wanted, after, limit);
    BetweenIsIncreasing(log, wanted, low, Top(log));
    assert InIdOrder(all);
    forall e | e in page ensures e in log && wanted(e) && (after.Some? ==> e.id > after.value) {
      AfterHolds(log, wanted, after, e);
    }
    forall e | e in log && wanted(e) && (after.Some? ==> e.id > after.value) && e !in page
      ensures |page| == BoundedLimit(limit) && forall f :: f in page ==> f.id < e.id
    {
      AfterHolds(log, wanted, after, e);
      var i :| 0 <= i < |all| && all[i] == e;
      assert forall j :: 0 <= j < |page| ==> page[j] == all[j];
    }
  }

  /** Where two pages agree so far, they agree on the next event. */
  lemma {:induction false} PagesAgree(log: seq<Event>, wanted: Event -> bool, after: Option<int>, limit: Option<int>,
                                      page: seq<Event>, other: seq<Event>, k: nat)
    requires Increasing(log) && IsPage(log, wanted, after, limit, page) && IsPage(log, wanted, after, limit, other)
    requires k <= |page| && k <= |other|
    ensures page[..k] == other[..k]
  {
    if k > 0 {
      PagesAgree(log, wanted, after, limit, page, other, k - 1);
      var e, f := page[k - 1], other[k - 1];
      assert e in page && f in other;
      if e.id < f.id {
        OmittedBelow(log, wanted, after, limit, other, k - 1, e, page[..k - 1]);
      } else if f.id < e.id {
        OmittedBelow(log, wanted, after, limit, page, k - 1, f, other[..k - 1]);
      }
      SameIdSameEvent(log, e, f);
    }
  }

  /** A page cannot leave out an event that belongs before one of its own. */
  lemma OmittedBelow(log: seq<Event>, wanted: Event -> bool, after: Option<int>, limit: Option<int>,
                     page: seq<Event>, k: nat, e: Event, before: seq<Event>)
    requires IsPage(log, wanted, after, limit, page) && k < |page| && page[..k] == before
    requires e in log && wanted(e) && (after.Some? ==> e.id > after.value)
    requires forall i :: 0 <= i < |before| ==> before[i].id < e.id
    ensures page[k].id <= e.id
  {
    assert page[k] in page;
    assert forall i :: 0 <= i < k ==> page[i] == before[i];
  }

  lemma SameIdSameEvent(log: seq<Event>, e: Event, f: Event)
    requires Increasing(log) && e in log && f in log
    ensures e.id == f.id ==> e == f
  {
    var i :| 0 <= i < |log| && log[i] == e;
    var j :| 0 <= j < |log| && log[j] == f;
  }

  lemma NextIsLeftOut(events: seq<Event>, page: seq<Event>)
    requires InIdOrder(events) && |page| < |events| && page == events[..|page|]
    ensures events[|page|] in events && events[|page|] !in page
  {
    assert forall i :: 0 <= i < |page| ==> page[i] == events[i];
  }

  lemma PageIsNotShorter(log: seq<Event>, wanted: Event -> bool, after: Option<int>, limit: Option<int>,
                         page: seq<Event>, other: seq<Event>)
    requires Increasing(log) && IsPage(log, wanted, after, limit, page) && IsPage(log, wanted, after, limit, other)
    ensures |page| >= |other|
  {
    if |page| < |other| {
      PagesAgree(log, wanted, after, limit, page, other, |page|);
      assert page[..|page|] == page;
      NextIsLeftOut(other, page);
    }
  }

  /** There is exactly one page for a log, a filter, a cursor and a limit: the one that the query returns. */
  lemma PageIff(log: seq<Event>, wanted: Event -> bool, after: Option<int>, limit: Option<int>, page: seq<Event>)
    requires Increasing(log)
    ensures IsPage(log, wanted, after, limit, page) <==> page == Query(log, wanted, after, limit)
  {
    QueryIsPage(log, wanted, after, limit);
    if IsPage(log, wanted, after, limit, page) {
      var query := Query(log, wanted, after, limit);
      PageIsNotShorter(log, wanted, after, limit, page, query);
      PageIsNotShorter(log, wanted, after, limit, query, page);
      PagesAgree(log, wanted, after, limit, page, query, |page|);
      assert page[..|page|] == page && query[..|query|] == query;
    }
  }

  class RunEventRepository {
    var log: seq<Event>
    var lastId: int

    constructor ()
      ensures log == [] && lastId == 0
    {
      log, lastId := [], 0;
    }

    ghost predicate Valid()
      reads this
    {
      Increasing(log) && lastId >= Top(log) && lastId >= 0
    }

    /** Ids are never used again. */
    method AppendRunEvent(project: string, requirement: Option<string>, ticket: Option<string>) returns (event: Event)
      requires Valid()
      modifies this
      ensures Valid() && event == Event(old(lastId) + 1, project, requirement, ticket) && log == old(log) + [event]
    {
      lastId := lastId + 1;
      event := Event(lastId, project, requirement, ticket);
      log := log + [event];
    }

    method ListRunEvents(project: string, after: Option<int>, limit: Option<int>,
                         requirement: Option<string>, ticket: Option<string>) returns (events: seq<Event>)
      requires Valid()
      ensures IsPage(log, e => Concerns(e, project, requirement, ticket), after, limit, events)
      ensures forall e :: e in events ==>
                && e in log && e.project == project && (after.Some? ==> e.id > after.value)
                && (requirement.Some? ==> e.requirement == requirement) && (ticket.Some? ==> e.ticket == ticket)
      ensures var bound := if limit.None? then 100 else if limit.value < 0 then 0 else if limit.value > 500 then 500
                           else limit.value;
              |events| <= bound && forall e :: e in log && e !in events ==>
                || e.project != project || (after.Some? && e.id <= after.value)
                || (requirement.Some? && e.requirement != requirement) || (ticket.Some? && e.ticket != ticket)
                || (|events| == bound && forall f :: f in events ==> f.id < e.id)
    {
      var wanted := e => Concerns(e, project, requirement, ticket);
      QueryIsPage(log, wanted, after, limit);
      events := Query(log, wanted, after, limit);
    }
  }

  // ---------- Pages ----------

  lemma {:induction false} NothingAbove(log: seq<Event>, wanted: Event -> bool, low: int, high: int)
    requires Increasing(log) && high >= Top(log)
    ensures Between(log, wanted, low, high) == After(log, wanted, low)
  {
    if log != [] {
      var shorter := log[..|log| - 1];
      NothingAbove(shorter, wanted, low, high);
      NothingAbove(shorter, wanted, low, Top(log));
    }
  }

  /** Events up to a point followed by those from there on are all the events. */
  lemma {:induction false} Join(log: seq<Event>, wanted: Event -> bool, low: int, mid: int, high: int)
    requires Increasing(log) && low <= mid <= high
    ensures Between(log, wanted, low, mid) + Between(log, wanted, mid, high) == Between(log, wanted, low, high)
  {
    if log != [] {
      var shorter, last := log[..|log| - 1], log[|log| - 1];
      Join(shorter, wanted, low, mid, high);
      if last.id <= mid {
        NothingBeyond(shorter, wanted, mid, high);
      }
    }
  }

  lemma {:induction false} NothingBeyond(log: seq<Event>, wanted: Event -> bool, low: int, high: int)
    requires Increasing(log) && Top(log) <= low
    ensures Between(log, wanted, low, high) == []
  {
    if log != [] {
      NothingBeyond(log[..|log| - 1], wanted, low, high);
    }
  }

  lemma PrefixIncreases(log: seq<Event>, more: seq<Event>)
    requires Increasing(log + more)
    ensures Increasing(log) && Top(log) <= Top(log + more)
  {
    var all := log + more;
    assert forall i :: 0 <= i < |log| ==> all[i] == log[i];
    if log != [] && more != [] {
      assert all[|log| - 1].id < all[|all| - 1].id;
    }
  }

  lemma OneMoreEvent(log: seq<Event>, e: Event, wanted: Event -> bool, low: int, high: int)
    requires e.id > high
    ensures Between(log + [e], wanted, low, high) == Between(log, wanted, low, high)
  {
    assert (log + [e])[..|log|] == log;
  }

  /** Appended events do not change what lies at or below an id of the earlier log. */
  lemma {:induction false} AppendingKeeps(log: seq<Event>, more: seq<Event>, wanted: Event -> bool, low: int, high: int)
    requires Increasing(log + more) && high <= Top(log)
    ensures Between(log + more, wanted, low, high) == Between(log, wanted, low, high)
    ensures Increasing(log) && Top(log) <= Top(log + more)
  {
    PrefixIncreases(log, more);
    if more == [] {
      assert log + more == log;
    } else {
      var fewer, last := more[..|more| - 1], more[|more| - 1];
      assert log + more == (log + fewer) + [last];
      PrefixIncreases(log + fewer, [last]);
      AppendingKeeps(log, fewer, wanted, low, high);
      LastIsAbove(log, more);
      OneMoreEvent(log + fewer, last, wanted, low, high);
    }
  }

  lemma LastIsAbove(log: seq<Event>, more: seq<Event>)
    requires Increasing(log + more) && more != []
    ensures Top(log) < more[|more| - 1].id
  {
    var all := log + more;
    assert all[|all| - 1] == more[|more| - 1];
    if log != [] {
      assert all[|log| - 1] == log[|log| - 1];
    }
  }

  /** The first m events after low are those up to the id of the m-th one. */
  lemma {:induction false} FirstOnesAreBetween(log: seq<Event>, wanted: Event -> bool, low: int, high: int, m: nat)
    requires Increasing(log) && 0 < m <= |Between(log, wanted, low, high)|
    ensures var all := Between(log, wanted, low, high);
            low < all[m - 1].id <= Top(log) && all[..m] == Between(log, wanted, low, all[m - 1].id)
  {
    var shorter, last := log[..|log| - 1], log[|log| - 1];
    var earlier := Between(shorter, wanted, low, high);
    if m <= |earlier| {
      FirstOnesAreBetween(shorter, wanted, low, high, m);
      assert Between(log, wanted, low, high)[..m] == earlier[..m];
      TopGrows(log);
    } else {
      assert Between(log, wanted, low, high)[..m] == earlier + [last];
      TopGrows(log);
      BelowTheTop(shorter, wanted, low, high, last.id);
    }
  }

  lemma TopGrows(log: seq<Event>)
    requires Increasing(log) && log != []
    ensures Increasing(log[..|log| - 1]) && Top(log[..|log| - 1]) < Top(log)
  {
  }

  lemma {:induction false} BelowTheTop(log: seq<Event>, wanted: Event -> bool, low: int, high: int, bound: int)
    requires Increasing(log) && Top(log) < bound <= high
    ensures Between(log, wanted, low, high) == Between(log, wanted, low, bound)
  {
    NothingAbove(log, wanted, low, high);
    NothingAbove(log, wanted, low, bound);
  }

  // ---------- A reader ----------

  /** What a reader has: the pages so far, and the cursor to continue from. */
  datatype Reader = Reader(seen: seq<Event>, cursor: int)

  const START := Reader([], 0)

  function Read(r: Reader, log: seq<Event>, wanted: Event -> bool, limit: Option<int>): Reader {
    var page := Query(log, wanted, Some(r.cursor), limit);
    if page == [] then r else Reader(r.seen + page, page[|page| - 1].id)
  }

  /** The reader has seen exactly the wanted events up to its cursor. */
  predicate UpToDate(r: Reader, log: seq<Event>, wanted: Event -> bool) {
    0 <= r.cursor <= Top(log) && r.seen == Between(log, wanted, 0, r.cursor)
  }

  lemma ReadKeepsUpToDate(r: Reader, log: seq<Event>, wanted: Event -> bool, limit: Option<int>)
    requires Increasing(log) && UpToDate(r, log, wanted)
    ensures UpToDate(Read(r, log, wanted, limit), log, wanted)
  {
    var all := After(log, wanted, r.cursor);
    var m := Min(|all|, BoundedLimit(limit));
    if m > 0 {
      FirstOnesAreBetween(log, wanted, r.cursor, Top(log), m);
      assert all[..m][m - 1] == all[m - 1];
      Join(log, wanted, 0, r.cursor, all[m - 1].id);
    }
  }

  /** What happens between two reads: more events are appended. A read at each log, with any limits. */
  function ReadAlong(r: Reader, logs: seq<seq<Event>>, wanted: Event -> bool, limits: seq<Option<int>>): Reader
    requires |limits| == |logs|
    decreases |logs|
  {
    if logs == [] then r else ReadAlong(Read(r, logs[0], wanted, limits[0]), logs[1..], wanted, limits[1..])
  }

  predicate Grow(log: seq<Event>, logs: seq<seq<Event>>)
    decreases |logs|
  {
    logs == [] || (log <= logs[0] && Increasing(logs[0]) && Grow(logs[0], logs[1..]))
  }

  function Latest(log: seq<Event>, logs: seq<seq<Event>>): seq<Event> {
    if logs == [] then log else logs[|logs| - 1]
  }

  /** Whatever is appended between the reads, and whatever the limits, the pages read so far are exactly the
      wanted events up to the cursor: none skipped, none repeated, in id order. */
  lemma {:induction false} NoSkipNoRepeat(r: Reader, log: seq<Event>, logs: seq<seq<Event>>, wanted: Event -> bool,
                                          limits: seq<Option<int>>)
    requires |limits| == |logs| && Grow(log, logs) && Increasing(log) && UpToDate(r, log, wanted)
    ensures UpToDate(ReadAlong(r, logs, wanted, limits), Latest(log, logs), wanted)
    decreases |logs|
  {
    if logs != [] {
      StillUpToDate(r, log, logs[0], wanted);
      ReadKeepsUpToDate(r, logs[0], wanted, limits[0]);
      NoSkipNoRepeat(Read(r, logs[0], wanted, limits[0]), logs[0], logs[1..], wanted, limits[1..]);
    }
  }

  lemma StillUpToDate(r: Reader, log: seq<Event>, longer: seq<Event>, wanted: Event -> bool)
    requires log <= longer && Increasing(longer) && UpToDate(r, log, wanted)
    ensures UpToDate(r, longer, wanted)
  {
    var more := longer[|log|..];
    assert longer == log + more;
    AppendingKeeps(log, more, wanted, 0, r.cursor);
  }

  /** A page is empty exactly when the limit is not positive or nothing wanted lies beyond the cursor. */
  lemma EmptyPageIff(log: seq<Event>, wanted: Event -> bool, after: int, limit: Option<int>)
    requires Increasing(log)
    ensures Query(log, wanted, Some(after), limit) == []
      <==> (limit.Some? && limit.value <= 0) || forall e :: e in log && wanted(e) ==> e.id <= after
  {
    var all := After(log, wanted, after);
    if all == [] {
      forall e | e in log && wanted(e) ensures e.id <= after {
        BetweenHolds(log, wanted, after, Top(log), e);
        var i :| 0 <= i < |log| && log[i] == e;
        assert i < |log| - 1 ==> log[i].id < log[|log| - 1].id;
      }
    } else {
      BetweenHolds(log, wanted, after, Top(log), all[0]);
    }
  }

  /** With a positive limit, every page of a fixed log that is not the last brings the cursor forward, and an
      empty page means that everything has been seen. */
  lemma ReadingMakesProgress(r: Reader, log: seq<Event>, wanted: Event -> bool, limit: Option<int>)
    requires Increasing(log) && UpToDate(r, log, wanted) && BoundedLimit(limit) > 0
    ensures var next := Read(r, log, wanted, limit);
            if next == r then r.seen == After(log, wanted, 0)
            else next.cursor > r.cursor && |next.seen| > |r.seen|
  {
    var all := After(log, wanted, r.cursor);
    Join(log, wanted, 0, r.cursor, Top(log));
    if all != [] {
      var m := Min(|all|, BoundedLimit(limit));
      FirstOnesAreBetween(log, wanted, r.cursor, Top(log), m);
      assert all[..m][m - 1] == all[m - 1];
    }
  }

  /** Paging to the first empty page, with any positive limits, for all events, one requirement or one ticket. */
  method ReadAll(repository: RunEventRepository, project: string, requirement: Option<string>, ticket: Option<string>,
                 limits: nat -> Option<int>)
    returns (events: seq<Event>)
    requires repository.Valid() && forall n :: BoundedLimit(limits(n)) > 0
    ensures events == After(repository.log, e => Concerns(e, project, requirement, ticket), 0)
  {
    ghost var log := repository.log;
    var wanted := e => Concerns(e, project, requirement, ticket);
    var reader := START;
    var n := 0;
    NothingSeen(log, wanted);
    while true
      invariant repository.log == log && Increasing(log) && UpToDate(reader, log, wanted)
      decreases Top(log) - reader.cursor
    {
      var page := repository.ListRunEvents(project, Some(reader.cursor), limits(n), requirement, ticket);
      PageIff(log, wanted, Some(reader.cursor), limits(n), page);
      ReadKeepsUpToDate(reader, log, wanted, limits(n));
      ReadingMakesProgress(reader, log, wanted, limits(n));
      if page == [] {
        return reader.seen;
      }
      reader := Reader(reader.seen + page, page[|page| - 1].id);
      n := n + 1;
    }
  }

  lemma NothingSeen(log: seq<Event>, wanted: Event -> bool)
    requires Increasing(log)
    ensures UpToDate(START, log, wanted)
  {
    var none := Between(log, wanted, 0, 0);
    assert none != [] ==> none[0] in none;
    forall e ensures e !in none {
      BetweenHolds(log, wanted, 0, 0, e);
    }
  }
}
