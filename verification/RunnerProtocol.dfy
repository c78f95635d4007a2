/** Every interleaving of the runner protocol, recorded in a history of lease events. A completion is two
    steps: the check that the lease is active, and the write, any number of other steps later. */
module RunnerProtocol {
  import opened Basics
  import opened TextOrder
  import opened RunnerJobs

  datatype Event =
    | Granted(job: string, runner: string, at: int, until: int)
    | Extended(job: string, runner: string, at: int, until: int)
    | Released(job: string, runner: string, at: int)
    | Completed(job: string, runner: string, at: int)

  /** A check that has passed: for which job and runner, when, and how many events had happened. */
  datatype Pass = Pass(job: string, runner: Runner, at: int, position: nat)

  /** The job table, the clock, the checks that have passed and whose write may still come, and the history. */
  datatype State = State(jobs: seq<Job>, now: int, passed: set<Pass>, history: seq<Event>)

  const INITIAL := State([], 0, {}, [])

  datatype Step =
    | Enqueue(id: string, workspace: string)
    | Lease(runner: Runner, ttlSec: int)
    | Heartbeat(runner: Runner, ttlSec: int)
    | Release(id: string, runner: Runner)
    | Check(id: string, runner: Runner)
    | Write(id: string, runner: Runner, result: string)
    | SetClock(now: int)

  /** A write follows a check that passed at some earlier time. */
  predicate Allowed(s: State, step: Step) {
    step.Write? ==> exists p :: p in s.passed && p.job == step.id && p.runner == step.runner
  }

  function BeatEvents(jobs: seq<Job>, runner: Runner, now: int, until: int, k: nat): seq<Event>
    requires k <= |jobs|
  {
    if k == 0 then []
    else
      var events := BeatEvents(jobs, runner, now, until, k - 1);
      if Beats(jobs[k - 1], runner) then events + [Extended(jobs[k - 1].id, runner.id, now, until)] else events
  }

  function Next(s: State, step: Step): State {
    match step
    case Enqueue(id, workspace) =>
      if Exists(s.jobs, id) then s else s.(jobs := Insert(s.jobs, NewJob(id, workspace, s.now)))
    case Lease(runner, ttlSec) =>
      var i := FirstGrantable(s.jobs, runner, s.now, 0);
      var until := LeaseUntil(s.now, ttlSec);
      if i == |s.jobs| then s
      else s.(jobs := s.jobs[i := Granting(s.jobs[i], runner, until)],
              history := s.history + [Granted(s.jobs[i].id, runner.id, s.now, until)])
    case Heartbeat(runner, ttlSec) =>
      var until := LeaseUntil(s.now, ttlSec);
      s.(jobs := Beat(s.jobs, runner, until),
         history := s.history + BeatEvents(s.jobs, runner, s.now, until, |s.jobs|))
    case Release(id, runner) =>
      var i := RowOf(s.jobs, id);
      if !CanRelease(s.jobs, id, runner) then s
      else s.(jobs := s.jobs[i := Releasing(s.jobs[i])], history := s.history + [Released(id, runner.id, s.now)])
    case Check(id, runner) =>
      if !PassesCheck(s.jobs, id, runner, s.now) then s
      else s.(passed := s.passed + {Pass(id, runner, s.now, |s.history|)})
    case Write(id, runner, result) =>
      var i := RowOf(s.jobs, id);
      if !CanComplete(s.jobs, id, runner) then s
      else s.(jobs := s.jobs[i := Completing(s.jobs[i], Terminal, result)],
              history := s.history + [Completed(id, runner.id, s.now)])
    case SetClock(now) => s.(now := now)
  }

  predicate AllowedRun(s: State, steps: seq<Step>)
    decreases |steps|
  {
    steps == [] || (Allowed(s, steps[0]) && AllowedRun(Next(s, steps[0]), steps[1..]))
  }

  function Final(s: State, steps: seq<Step>): State
    decreases |steps|
  {
    if steps == [] then s else Final(Next(s, steps[0]), steps[1..])
  }

  // ---------- What a history may contain ----------

  function LastEvent(h: seq<Event>, job: string): Option<Event> {
    if h == [] then None
    else if h[|h| - 1].job == job then Some(h[|h| - 1])
    else LastEvent(h[..|h| - 1], job)
  }

  /** The runner of the latest grant of the job. */
  function LatestGrantee(h: seq<Event>, job: string): Option<string> {
    if h == [] then None
    else if h[|h| - 1].job == job && h[|h| - 1].Granted? then Some(h[|h| - 1].runner)
    else LatestGrantee(h[..|h| - 1], job)
  }

  predicate Holds(last: Option<Event>, runner: string) {
    last.Some? && (last.value.Granted? || last.value.Extended?) && last.value.runner == runner
  }

  /** A job is granted only if it was never leased, was released, or its lease has run out; and only the
      runner holding the lease extends it, releases it or completes the job. */
  predicate SafeEvent(h: seq<Event>, e: Event) {
    var last := LastEvent(h, e.job);
    match e
    case Granted(_, _, at, until) =>
      && at < until
      && (last.None? || last.value.Released?
          || ((last.value.Granted? || last.value.Extended?) && last.value.until <= at))
    case Extended(_, runner, at, until) => at < until && Holds(last, runner)
    case Released(_, runner, _) => Holds(last, runner)
    case Completed(_, runner, _) =>
      Holds(last, runner) || (last.Some? && last.value.Completed? && last.value.runner == runner)
  }

  predicate SafeHistory(h: seq<Event>) {
    h == [] || (SafeHistory(h[..|h| - 1]) && SafeEvent(h[..|h| - 1], h[|h| - 1]))
  }

  // ---------- The invariant ----------

  /** A job's columns agree with the last event about it. */
  predicate Agrees(job: Job, last: Option<Event>) {
    match job.status
    case Queued => job.runner.None? && job.expires.None? && (last.None? || last.value.Released?)
    case Leased =>
      && job.runner.Some? && job.expires.Some?
      && Holds(last, job.runner.value) && last.value.until == job.expires.value
    case Running => false
    case Terminal => job.runner.Some? && last.Some? && last.value.Completed? && last.value.runner == job.runner.value
  }

  ghost predicate Consistent(jobs: seq<Job>, h: seq<Event>) {
    && DistinctJobs(jobs)
    && (forall i :: 0 <= i < |jobs| ==> Agrees(jobs[i], LastEvent(h, jobs[i].id)))
    && (forall id {:trigger LastEvent(h, id)} :: LastEvent(h, id).Some? ==> Exists(jobs, id))
    && SafeHistory(h)
  }

  lemma LastEventAfter(h: seq<Event>, e: Event, job: string)
    ensures LastEvent(h + [e], job) == if e.job == job then Some(e) else LastEvent(h, job)
  {
    assert (h + [e])[..|h|] == h;
  }

  /** One row changes together with one safe event about it. */
  lemma RowAndEvent(jobs: seq<Job>, h: seq<Event>, i: nat, job: Job, e: Event)
    requires Consistent(jobs, h) && i < |jobs| && job.id == jobs[i].id == e.job
    requires SafeEvent(h, e) && Agrees(job, Some(e))
    ensures Consistent(jobs[i := job], h + [e])
  {
    var after := jobs[i := job];
    assert (h + [e])[..|h|] == h;
    forall k | 0 <= k < |jobs| ensures Agrees(after[k], LastEvent(h + [e], after[k].id)) {
      LastEventAfter(h, e, jobs[k].id);
    }
    forall id | LastEvent(h + [e], id).Some? ensures Exists(after, id) {
      LastEventAfter(h, e, id);
      var k :| 0 <= k < |jobs| && jobs[k].id == id;
      assert after[k].id == id;
    }
  }

  /** The first k rows extended, the rest not yet. */
  function PartlyBeat(jobs: seq<Job>, runner: Runner, until: int, k: nat): (r: seq<Job>)
    requires k <= |jobs|
    ensures |r| == |jobs|
  {
    if k == 0 then jobs
    else
      var before := PartlyBeat(jobs, runner, until, k - 1);
      if Beats(jobs[k - 1], runner) then before[k - 1 := jobs[k - 1].(expires := Some(until))] else before
  }

  lemma {:induction false} PartlyBeatRows(jobs: seq<Job>, runner: Runner, until: int, k: nat)
    requires k <= |jobs|
    ensures var r := PartlyBeat(jobs, runner, until, k);
            forall i :: 0 <= i < |jobs| ==> r[i] == if i < k then Beat(jobs, runner, until)[i] else jobs[i]
  {
    if k > 0 {
      PartlyBeatRows(jobs, runner, until, k - 1);
    }
  }

  lemma OneMoreBeat(jobs: seq<Job>, h: seq<Event>, events: seq<Event>, i: nat, runner: Runner, now: int, until: int)
    requires Consistent(jobs, h + events) && now < until && i < |jobs| && Beats(jobs[i], runner)
    ensures Consistent(jobs[i := jobs[i].(expires := Some(until))],
                       h + (events + [Extended(jobs[i].id, runner.id, now, until)]))
  {
    var e := Extended(jobs[i].id, runner.id, now, until);
    assert Agrees(jobs[i], LastEvent(h + events, jobs[i].id));
    RowAndEvent(jobs, h + events, i, jobs[i].(expires := Some(until)), e);
    assert h + (events + [e]) == (h + events) + [e];
  }

  ghost predicate KeptByBeat(inv: (seq<Job>, seq<Event>) -> bool, jobs: seq<Job>, h: seq<Event>, events: seq<Event>,
                             i: nat, runner: Runner, now: int, until: int)
  {
    inv(jobs, h + events) && i < |jobs| && Beats(jobs[i], runner) ==>
      inv(jobs[i := jobs[i].(expires := Some(until))], h + (events + [Extended(jobs[i].id, runner.id, now, until)]))
  }

  /** What each single extension keeps, a whole heartbeat keeps. */
  lemma {:induction false} BeatByBeat(inv: (seq<Job>, seq<Event>) -> bool, jobs: seq<Job>, h: seq<Event>,
                                      runner: Runner, now: int, until: int, k: nat)
    requires inv(jobs, h) && k <= |jobs|
    requires forall later, events, i :: KeptByBeat(inv, later, h, events, i, runner, now, until)
    ensures inv(PartlyBeat(jobs, runner, until, k), h + BeatEvents(jobs, runner, now, until, k))
  {
    if k == 0 {
      assert h + [] == h;
    } else {
      BeatByBeat(inv, jobs, h, runner, now, until, k - 1);
      PartlyBeatRows(jobs, runner, until, k - 1);
      assert KeptByBeat(inv, PartlyBeat(jobs, runner, until, k - 1), h, BeatEvents(jobs, runner, now, until, k - 1),
                        k - 1, runner, now, until);
    }
  }

  lemma HeartbeatKeepsConsistent(jobs: seq<Job>, h: seq<Event>, runner: Runner, now: int, until: int)
    requires Consistent(jobs, h) && now < until
    ensures Consistent(Beat(jobs, runner, until), h + BeatEvents(jobs, runner, now, until, |jobs|))
  {
    var inv := (js: seq<Job>, es: seq<Event>) => Consistent(js, es);
    forall later, events, i: nat ensures KeptByBeat(inv, later, h, events, i, runner, now, until) {
      if inv(later, h + events) && i < |later| && Beats(later[i], runner) {
        OneMoreBeat(later, h, events, i, runner, now, until);
      }
    }
    BeatByBeat(inv, jobs, h, runner, now, until, |jobs|);
    PartlyBeatRows(jobs, runner, until, |jobs|);
    assert PartlyBeat(jobs, runner, until, |jobs|) == Beat(jobs, runner, until);
  }

  lemma InsertedIds(jobs: seq<Job>, job: Job, id: string)
    ensures Exists(Insert(jobs, job), id) <==> id == job.id || Exists(jobs, id)
  {
    var after, p := Insert(jobs, job), InsertPosition(jobs, job);
    assert after[p].id == job.id;
    if Exists(jobs, id) {
      var k :| 0 <= k < |jobs| && jobs[k].id == id;
      assert after[if k < p then k else k + 1].id == id;
    }
  }

  lemma EnqueueKeepsConsistent(jobs: seq<Job>, h: seq<Event>, job: Job)
    requires Consistent(jobs, h) && !Exists(jobs, job.id)
    requires job.status == Queued && job.runner.None? && job.expires.None?
    ensures Consistent(Insert(jobs, job), h)
  {
    var after, p := Insert(jobs, job), InsertPosition(jobs, job);
    assert LastEvent(h, job.id).None?;
    assert DistinctJobs(after) by {
      forall i, j | 0 <= i < j < |after| ensures after[i].id != after[j].id {
        assert i < p < j ==> jobs[i].id != jobs[j - 1].id;
      }
    }
    forall id | LastEvent(h, id).Some? ensures Exists(after, id) {
      InsertedIds(jobs, job, id);
    }
  }

  lemma StepKeepsConsistent(s: State, step: Step)
    requires Consistent(s.jobs, s.history)
    ensures Consistent(Next(s, step).jobs, Next(s, step).history)
  {
    var jobs, h := s.jobs, s.history;
    match step
    case Enqueue(id, workspace) =>
      if !Exists(jobs, id) {
        EnqueueKeepsConsistent(jobs, h, NewJob(id, workspace, s.now));
      }
    case Lease(runner, ttlSec) =>
      var i := FirstGrantable(jobs, runner, s.now, 0);
      var until := LeaseUntil(s.now, ttlSec);
      if i < |jobs| {
        RowAndEvent(jobs, h, i, Granting(jobs[i], runner, until), Granted(jobs[i].id, runner.id, s.now, until));
      }
    case Heartbeat(runner, ttlSec) =>
      var until := LeaseUntil(s.now, ttlSec);
      HeartbeatKeepsConsistent(jobs, h, runner, s.now, until);
    case Release(id, runner) =>
      if CanRelease(jobs, id, runner) {
        var i := RowOf(jobs, id);
        RowAndEvent(jobs, h, i, Releasing(jobs[i]), Released(id, runner.id, s.now));
      }
    case Check(_, _) =>
    case Write(id, runner, result) =>
      if CanComplete(jobs, id, runner) {
        var i := RowOf(jobs, id);
        RowAndEvent(jobs, h, i, Completing(jobs[i], Terminal, result), Completed(id, runner.id, s.now));
      }
    case SetClock(_) =>
  }

  lemma {:induction false} RunKeepsConsistent(s: State, steps: seq<Step>)
    requires Consistent(s.jobs, s.history)
    ensures Consistent(Final(s, steps).jobs, Final(s, steps).history)
    decreases |steps|
  {
    if steps != [] {
      StepKeepsConsistent(s, steps[0]);
      RunKeepsConsistent(Next(s, steps[0]), steps[1..]);
    }
  }

  /** Every run from the empty table has a safe history, and its rows have the shape of their status.
      The conditions of the single statements suffice: no write needs its check for this. */
  lemma RunsAreSafe(steps: seq<Step>)
    ensures var s := Final(INITIAL, steps);
            && SafeHistory(s.history)
            && forall i :: 0 <= i < |s.jobs| ==>
                 && (s.jobs[i].status == Queued ==> s.jobs[i].runner.None? && s.jobs[i].expires.None?)
                 && (s.jobs[i].status == Leased ==> s.jobs[i].runner.Some? && s.jobs[i].expires.Some?)
                 && (s.jobs[i].status == Terminal ==> s.jobs[i].runner == LatestGrantee(s.history, s.jobs[i].id))
                 && s.jobs[i].status != Running
  {
    RunKeepsConsistent(INITIAL, steps);
    var s := Final(INITIAL, steps);
    forall i | 0 <= i < |s.jobs| && s.jobs[i].status == Terminal
      ensures s.jobs[i].runner == LatestGrantee(s.history, s.jobs[i].id)
    {
      HolderIsLatestGrantee(s.history, s.jobs[i].id);
    }
  }

  // ---------- What safe histories imply ----------

  /** Whoever holds, or has completed, a job is the runner it was last granted to. */
  lemma {:induction false} HolderIsLatestGrantee(h: seq<Event>, job: string)
    requires SafeHistory(h)
    ensures var last := LastEvent(h, job);
            last.Some? && !last.value.Released? ==> LatestGrantee(h, job) == Some(last.value.runner)
  {
    if h != [] {
      HolderIsLatestGrantee(h[..|h| - 1], job);
    }
  }

  lemma {:induction false} PrefixIsSafe(h: seq<Event>, q: nat)
    requires SafeHistory(h) && q <= |h|
    ensures SafeHistory(h[..q])
    decreases |h|
  {
    if q < |h| {
      PrefixIsSafe(h[..|h| - 1], q);
      assert h[..|h| - 1][..q] == h[..q];
    } else {
      assert h[..q] == h;
    }
  }

  lemma SafeAt(h: seq<Event>, q: nat)
    requires SafeHistory(h) && q < |h|
    ensures SafeHistory(h[..q]) && SafeEvent(h[..q], h[q])
  {
    PrefixIsSafe(h, q + 1);
    assert h[..q + 1][..q] == h[..q];
  }

  /** The position of the last event about a job, if there is one at or after p. */
  lemma {:induction false} LastEventPosition(h: seq<Event>, p: nat) returns (k: nat)
    requires p < |h|
    ensures p <= k < |h| && h[k].job == h[p].job && LastEvent(h, h[p].job) == Some(h[k])
    ensures forall m :: k < m < |h| ==> h[m].job != h[p].job
  {
    if h[|h| - 1].job == h[p].job {
      k := |h| - 1;
    } else {
      var shorter := h[..|h| - 1];
      assert shorter[p] == h[p];
      k := LastEventPosition(shorter, p);
    }
  }

  /** Between two grants of a job, the last thing to happen to it is a release, or a lease that has run out
      by the time of the second grant. */
  lemma GrantsAreSeparated(h: seq<Event>, p: nat, q: nat) returns (k: nat)
    requires SafeHistory(h) && p < q < |h|
    requires h[p].Granted? && h[q].Granted? && h[p].job == h[q].job
    ensures p <= k < q && h[k].job == h[q].job && forall m :: k < m < q ==> h[m].job != h[q].job
    ensures h[k].Released? || ((h[k].Granted? || h[k].Extended?) && h[k].until <= h[q].at)
  {
    SafeAt(h, q);
    assert h[..q][p] == h[p];
    k := LastEventPosition(h[..q], p);
    assert forall m :: k < m < q ==> h[m] == h[..q][m];
  }

  /** Only the runner that was granted the job last completes it, however stale its check is. */
  lemma OnlyLatestGranteeCompletes(h: seq<Event>, q: nat)
    requires SafeHistory(h) && q < |h| && h[q].Completed?
    ensures LatestGrantee(h[..q], h[q].job) == Some(h[q].runner)
  {
    SafeAt(h, q);
    HolderIsLatestGrantee(h[..q], h[q].job);
  }

  /** After a completion, nothing but a completion by the same runner happens to the job. */
  lemma {:induction false} CompletionIsFinal(h: seq<Event>, p: nat, q: nat)
    requires SafeHistory(h) && p < q < |h|
    requires h[p].Completed? && h[q].job == h[p].job
    ensures h[q].Completed? && h[q].runner == h[p].runner
    decreases q
  {
    SafeAt(h, q);
    assert h[..q][p] == h[p];
    var k := LastEventPosition(h[..q], p);
    if k > p {
      CompletionIsFinal(h, p, k);
    }
  }

  // ---------- What the check adds ----------

  /** At the time of the check, the runner held an unexpired lease on the job. */
  predicate HeldAtCheck(h: seq<Event>, p: Pass) {
    && p.position <= |h|
    && Holds(LastEvent(h[..p.position], p.job), p.runner.id)
    && LastEvent(h[..p.position], p.job).value.until > p.at
  }

  predicate CheckedBefore(passed: set<Pass>, e: Event, q: int) {
    exists p :: p in passed && p.job == e.job && p.runner.id == e.runner && p.position <= q
  }

  ghost predicate Checked(passed: set<Pass>, h: seq<Event>) {
    && (forall p :: p in passed ==> HeldAtCheck(h, p))
    && (forall q :: 0 <= q < |h| && h[q].Completed? ==> CheckedBefore(passed, h[q], q))
  }

  lemma MoreHistoryKeepsChecks(passed: set<Pass>, h: seq<Event>, later: seq<Event>)
    requires Checked(passed, h)
    requires forall i :: 0 <= i < |later| && later[i].Completed? ==> CheckedBefore(passed, later[i], |h|)
    ensures Checked(passed, h + later)
  {
    forall p | p in passed ensures HeldAtCheck(h + later, p) {
      assert (h + later)[..p.position] == h[..p.position];
    }
    forall q | 0 <= q < |h + later| && (h + later)[q].Completed? ensures CheckedBefore(passed, (h + later)[q], q) {
      if q < |h| {
        assert (h + later)[q] == h[q];
      } else {
        var p :| p in passed && p.job == later[q - |h|].job && p.runner.id == later[q - |h|].runner
          && p.position <= |h|;
      }
    }
  }

  predicate NothingCompleted(events: seq<Event>) {
    forall i :: 0 <= i < |events| ==> !events[i].Completed?
  }

  lemma {:induction false} BeatsCompleteNothing(jobs: seq<Job>, runner: Runner, now: int, until: int, k: nat)
    requires k <= |jobs|
    ensures NothingCompleted(BeatEvents(jobs, runner, now, until, k))
  {
    if k > 0 {
      BeatsCompleteNothing(jobs, runner, now, until, k - 1);
    }
  }

  lemma CheckKeepsChecked(s: State, id: string, runner: Runner)
    requires Consistent(s.jobs, s.history) && Checked(s.passed, s.history) && PassesCheck(s.jobs, id, runner, s.now)
    ensures Checked(s.passed + {Pass(id, runner, s.now, |s.history|)}, s.history)
  {
    var i := RowOf(s.jobs, id);
    assert Agrees(s.jobs[i], LastEvent(s.history, id));
    assert s.history[..|s.history|] == s.history;
    assert HeldAtCheck(s.history, Pass(id, runner, s.now, |s.history|));
    forall q | 0 <= q < |s.history| && s.history[q].Completed?
      ensures CheckedBefore(s.passed + {Pass(id, runner, s.now, |s.history|)}, s.history[q], q)
    {
      var p :| p in s.passed && p.job == s.history[q].job && p.runner.id == s.history[q].runner && p.position <= q;
    }
  }

  lemma StepKeepsChecked(s: State, step: Step)
    requires Consistent(s.jobs, s.history) && Checked(s.passed, s.history) && Allowed(s, step)
    ensures Checked(Next(s, step).passed, Next(s, step).history)
  {
    match step
    case Lease(runner, ttlSec) =>
      var i := FirstGrantable(s.jobs, runner, s.now, 0);
      if i < |s.jobs| {
        MoreHistoryKeepsChecks(s.passed, s.history,
                               [Granted(s.jobs[i].id, runner.id, s.now, LeaseUntil(s.now, ttlSec))]);
      }
    case Heartbeat(runner, ttlSec) =>
      var until := LeaseUntil(s.now, ttlSec);
      BeatsCompleteNothing(s.jobs, runner, s.now, until, |s.jobs|);
      assert NothingCompleted(BeatEvents(s.jobs, runner, s.now, until, |s.jobs|));
      MoreHistoryKeepsChecks(s.passed, s.history, BeatEvents(s.jobs, runner, s.now, until, |s.jobs|));
    case Release(id, runner) =>
      MoreHistoryKeepsChecks(s.passed, s.history, [Released(id, runner.id, s.now)]);
    case Check(id, runner) =>
      if PassesCheck(s.jobs, id, runner, s.now) {
        CheckKeepsChecked(s, id, runner);
      }
    case Write(id, runner, result) =>
      var p :| p in s.passed && p.job == id && p.runner == runner;
      assert HeldAtCheck(s.history, p);
      MoreHistoryKeepsChecks(s.passed, s.history, [Completed(id, runner.id, s.now)]);
    case _ =>
  }

  lemma {:induction false} RunKeepsChecked(s: State, steps: seq<Step>)
    requires Consistent(s.jobs, s.history) && Checked(s.passed, s.history) && AllowedRun(s, steps)
    ensures Checked(Final(s, steps).passed, Final(s, steps).history)
    decreases |steps|
  {
    if steps != [] {
      StepKeepsChecked(s, steps[0]);
      StepKeepsConsistent(s, steps[0]);
      RunKeepsChecked(Next(s, steps[0]), steps[1..]);
    }
  }

  /** If every write follows a passed check, each completion comes after a moment at which its runner held
      an unexpired lease on the job, and that runner is still the last one it was granted to. */
  lemma CompletionsWereChecked(steps: seq<Step>, q: nat) returns (p: Pass)
    requires AllowedRun(INITIAL, steps)
    requires var h := Final(INITIAL, steps).history; q < |h| && h[q].Completed?
    ensures var h := Final(INITIAL, steps).history;
            && p.job == h[q].job && p.runner.id == h[q].runner && p.position <= q
            && HeldAtCheck(h, p)
            && LatestGrantee(h[..q], h[q].job) == Some(p.runner.id)
  {
    var s := Final(INITIAL, steps);
    RunKeepsChecked(INITIAL, steps);
    RunKeepsConsistent(INITIAL, steps);
    OnlyLatestGranteeCompletes(s.history, q);
    assert CheckedBefore(s.passed, s.history[q], q);
    p :| p in s.passed && p.job == s.history[q].job && p.runner.id == s.history[q].runner && p.position <= q;
  }

  // ---------- What steps preserve ----------

  predicate StillThere(before: Job, jobs: seq<Job>) {
    exists i :: 0 <= i < |jobs| && Continues(before, jobs[i])
  }

  /** The same job later: same identity, and a terminal one keeps status and owner. */
  predicate Continues(before: Job, after: Job) {
    && after.id == before.id && after.workspace == before.workspace && after.createdAt == before.createdAt
    && (before.status == Terminal ==> after.status == Terminal && after.runner == before.runner)
  }

  lemma StepKeepsJobs(s: State, step: Step, k: nat)
    requires k < |s.jobs|
    ensures StillThere(s.jobs[k], Next(s, step).jobs)
  {
    var after := Next(s, step).jobs;
    if step.Enqueue? && !Exists(s.jobs, step.id) {
      var p := InsertPosition(s.jobs, NewJob(step.id, step.workspace, s.now));
      assert Continues(s.jobs[k], after[if k < p then k else k + 1]);
    } else {
      assert Continues(s.jobs[k], after[k]);
    }
  }

  /** No job is lost, and a terminal job stays terminal with the same owner, over any run. */
  lemma {:induction false} RunKeepsJobs(s: State, steps: seq<Step>, k: nat)
    requires k < |s.jobs|
    ensures StillThere(s.jobs[k], Final(s, steps).jobs)
    decreases |steps|
  {
    if steps == [] {
      assert Continues(s.jobs[k], s.jobs[k]);
    } else {
      StepKeepsJobs(s, steps[0], k);
      var next := Next(s, steps[0]);
      var m :| 0 <= m < |next.jobs| && Continues(s.jobs[k], next.jobs[m]);
      RunKeepsJobs(next, steps[1..], m);
      var final := Final(s, steps).jobs;
      var i :| 0 <= i < |final| && Continues(next.jobs[m], final[i]);
      assert Continues(s.jobs[k], final[i]);
    }
  }

  /** Order depends only on ids and ages. */
  lemma SameAgesSameOrder(before: seq<Job>, after: seq<Job>)
    requires Sorted(before) && |after| == |before|
    requires forall i :: 0 <= i < |before| ==> after[i].id == before[i].id && after[i].createdAt == before[i].createdAt
    ensures Sorted(after)
  {
    forall i, j | 0 <= i < j < |after| ensures OlderOrSame(after[i], after[j]) {
      assert OlderOrSame(before[i], before[j]);
    }
  }

  lemma StepKeepsOrder(s: State, step: Step)
    requires Sorted(s.jobs)
    ensures Sorted(Next(s, step).jobs)
  {
    if step.Enqueue? {
      InsertKeepsOrder(s.jobs, NewJob(step.id, step.workspace, s.now));
    } else {
      SameAgesSameOrder(s.jobs, Next(s, step).jobs);
    }
  }

  /** In every reachable table the rows are in age order, so a lease always goes to the oldest grantable job. */
  lemma {:induction false} RunKeepsOrder(s: State, steps: seq<Step>)
    requires Sorted(s.jobs)
    ensures Sorted(Final(s, steps).jobs)
    decreases |steps|
  {
    if steps != [] {
      StepKeepsOrder(s, steps[0]);
      RunKeepsOrder(Next(s, steps[0]), steps[1..]);
    }
  }
  // ---------- The stored result ----------

  /** This step writes a result for the job by its owner. */
  predicate WritesFor(step: Step, job: Job) {
    step.Write? && step.id == job.id && step.runner.workspace == job.workspace && Some(step.runner.id) == job.runner
  }

  /** The job's result is that of the last write by its owner. */
  predicate LastWritten(done: seq<Step>, k: nat, job: Job)
    requires k < |done|
  {
    && WritesFor(done[k], job) && done[k].result == job.result
    && forall m :: k < m < |done| ==> !WritesFor(done[m], job)
  }

  predicate ResultKept(done: seq<Step>, job: Job) {
    job.status == Terminal ==> exists k :: 0 <= k < |done| && LastWritten(done, k, job)
  }

  lemma LaterStepKeepsResult(done: seq<Step>, step: Step, job: Job)
    requires ResultKept(done, job) && !WritesFor(step, job)
    ensures ResultKept(done + [step], job)
  {
    var longer := done + [step];
    if job.status == Terminal {
      var k :| 0 <= k < |done| && LastWritten(done, k, job);
      assert longer[k] == done[k];
      assert forall m :: k < m < |done| ==> longer[m] == done[m];
      assert LastWritten(longer, k, job);
    }
  }

  lemma WriteKeepsResult(done: seq<Step>, step: Step, job: Job)
    requires WritesFor(step, job) && job.result == step.result
    ensures ResultKept(done + [step], job)
  {
    assert LastWritten(done + [step], |done|, job);
  }

  lemma StepKeepsResults(s: State, done: seq<Step>, step: Step, i: nat)
    requires DistinctJobs(s.jobs) && forall j :: 0 <= j < |s.jobs| ==> ResultKept(done, s.jobs[j])
    requires i < |Next(s, step).jobs|
    ensures ResultKept(done + [step], Next(s, step).jobs[i])
  {
    var job := Next(s, step).jobs[i];
    if step.Write? && CanComplete(s.jobs, step.id, step.runner) && i == RowOf(s.jobs, step.id) {
      WriteKeepsResult(done, step, job);
    } else if job.status == Terminal {
      var row := if step.Enqueue? && |Next(s, step).jobs| > |s.jobs|
                    && i >= InsertPosition(s.jobs, NewJob(step.id, step.workspace, s.now)) then i - 1 else i;
      assert job == s.jobs[row];
      if WritesFor(step, job) {
        RowIsOnly(s.jobs, i);
        assert false;
      }
      LaterStepKeepsResult(done, step, job);
    }
  }

  lemma RowIsOnly(jobs: seq<Job>, i: nat)
    requires DistinctJobs(jobs) && i < |jobs|
    ensures RowOf(jobs, jobs[i].id) == i
  {
  }

  lemma {:induction false} RunKeepsResults(s: State, done: seq<Step>, steps: seq<Step>)
    requires Consistent(s.jobs, s.history) && forall j :: 0 <= j < |s.jobs| ==> ResultKept(done, s.jobs[j])
    ensures forall j :: 0 <= j < |Final(s, steps).jobs| ==> ResultKept(done + steps, Final(s, steps).jobs[j])
    decreases |steps|
  {
    if steps == [] {
      assert done + steps == done;
    } else {
      var next := Next(s, steps[0]);
      forall i | 0 <= i < |next.jobs| ensures ResultKept(done + [steps[0]], next.jobs[i]) {
        StepKeepsResults(s, done, steps[0], i);
      }
      StepKeepsConsistent(s, steps[0]);
      RunKeepsResults(next, done + [steps[0]], steps[1..]);
      assert done + [steps[0]] + steps[1..] == done + steps;
    }
  }

  /** In every reachable table, a terminal job holds the result of the last write step by the runner that it was
      granted to last. */
  lemma ResultIsTheLastWritten(steps: seq<Step>, i: nat) returns (k: nat)
    requires i < |Final(INITIAL, steps).jobs| && Final(INITIAL, steps).jobs[i].status == Terminal
    ensures var s := Final(INITIAL, steps);
            var job := s.jobs[i];
            && k < |steps| && steps[k].Write? && steps[k].id == job.id && steps[k].result == job.result
            && Some(steps[k].runner.id) == job.runner == LatestGrantee(s.history, job.id)
            && forall m :: k < m < |steps| ==>
                 !(steps[m].Write? && steps[m].id == job.id && steps[m].runner.workspace == job.workspace
                   && Some(steps[m].runner.id) == job.runner)
  {
    RunKeepsResults(INITIAL, [], steps);
    RunsAreSafe(steps);
    assert [] + steps == steps;
    var job := Final(INITIAL, steps).jobs[i];
    assert ResultKept(steps, job);
    k :| 0 <= k < |steps| && LastWritten(steps, k, job);
    assert forall m :: k < m < |steps| ==> !WritesFor(steps[m], job);
  }

  // ---------- The steps, told by the columns ----------

  /** Row i has this id, and the runner's workspace and name. */
  predicate OwnedAt(jobs: seq<Job>, i: int, id: string, runner: Runner) {
    && 0 <= i < |jobs| && jobs[i].id == id && IsFirst(jobs, i)
    && jobs[i].workspace == runner.workspace && jobs[i].runner == Some(runner.id)
  }

  predicate OpenAt(jobs: seq<Job>, i: int, runner: Runner, now: int) {
    0 <= i < |jobs| && IsOpen(jobs[i], runner, now) && forall j :: 0 <= j < i ==> !IsOpen(jobs[j], runner, now)
  }

  predicate ExtendedRow(before: Job, after: Job, runner: Runner, until: int) {
    after == if before.workspace == runner.workspace && before.runner == Some(runner.id) && before.status == Leased
             then before.(expires := Some(until)) else before
  }

  predicate LeasedBy(job: Job, runner: Runner) {
    job.workspace == runner.workspace && job.runner == Some(runner.id) && job.status == Leased
  }

  /** What a step does to the table, the clock, the checks passed and the history. */
  ghost predicate Takes(s: State, step: Step, t: State) {
    match step
    case Enqueue(id, workspace) =>
      if exists i :: 0 <= i < |s.jobs| && s.jobs[i].id == id then t == s
      else t == s.(jobs := Insert(s.jobs, Job(id, workspace, Queued, None, None, "{}", s.now)))
    case Lease(runner, ttlSec) =>
      var until := s.now + if ttlSec > 1 then ttlSec else 1;
      if exists i :: 0 <= i < |s.jobs| && IsOpen(s.jobs[i], runner, s.now) then
        exists i :: OpenAt(s.jobs, i, runner, s.now) && t == s.(
          jobs := s.jobs[i := s.jobs[i].(status := Leased, runner := Some(runner.id), expires := Some(until))],
          history := s.history + [Granted(s.jobs[i].id, runner.id, s.now, until)])
      else t == s
    case Heartbeat(runner, ttlSec) =>
      var until := s.now + if ttlSec > 1 then ttlSec else 1;
      && |t.jobs| == |s.jobs|
      && (forall i :: 0 <= i < |s.jobs| ==> ExtendedRow(s.jobs[i], t.jobs[i], runner, until))
      && s.history <= t.history && t == s.(jobs := t.jobs, history := t.history)
      && forall e ::
           e in t.history[|s.history|..]
           <==> exists i :: 0 <= i < |s.jobs| && LeasedBy(s.jobs[i], runner)
                            && e == Extended(s.jobs[i].id, runner.id, s.now, until)
    case Release(id, runner) =>
      if exists i :: OwnedAt(s.jobs, i, id, runner) && s.jobs[i].status == Leased then
        exists i :: OwnedAt(s.jobs, i, id, runner) && t == s.(
          jobs := s.jobs[i := s.jobs[i].(status := Queued, runner := None, expires := None)],
          history := s.history + [Released(id, runner.id, s.now)])
      else t == s
    case Check(id, runner) =>
      if exists i :: OwnedAt(s.jobs, i, id, runner) && s.jobs[i].status == Leased
                     && (s.jobs[i].expires.Some? ==> s.now < s.jobs[i].expires.value)
      then t == s.(passed := s.passed + {Pass(id, runner, s.now, |s.history|)})
      else t == s
    case Write(id, runner, result) =>
      if exists i :: OwnedAt(s.jobs, i, id, runner) then
        exists i :: OwnedAt(s.jobs, i, id, runner) && t == s.(
          jobs := s.jobs[i := s.jobs[i].(status := Terminal, result := result)],
          history := s.history + [Completed(id, runner.id, s.now)])
      else t == s
    case SetClock(now) => t == s.(now := now)
  }

  lemma OwnedIsRowOf(jobs: seq<Job>, id: string, runner: Runner, i: int)
    ensures OwnedAt(jobs, i, id, runner) <==> i == RowOf(jobs, id) && CanComplete(jobs, id, runner)
  {
    if 0 <= i < |jobs| && jobs[i].id == id && IsFirst(jobs, i) {
      assert RowOf(jobs, id) < |jobs| ==> jobs[RowOf(jobs, id)].id == id;
    }
  }

  lemma OpenIsFirstGrantable(jobs: seq<Job>, runner: Runner, now: int)
    ensures var i := FirstGrantable(jobs, runner, now, 0);
            if i < |jobs| then OpenAt(jobs, i, runner, now)
            else forall j :: 0 <= j < |jobs| ==> !IsOpen(jobs[j], runner, now)
  {
    assert forall j :: 0 <= j < |jobs| ==> (IsOpen(jobs[j], runner, now) <==> Grantable(jobs[j], runner, now));
  }

  lemma {:induction false} BeatEventsHold(jobs: seq<Job>, runner: Runner, now: int, until: int, k: nat, e: Event)
    requires k <= |jobs|
    ensures e in BeatEvents(jobs, runner, now, until, k)
      <==> exists i :: 0 <= i < k && LeasedBy(jobs[i], runner) && e == Extended(jobs[i].id, runner.id, now, until)
  {
    if k > 0 {
      BeatEventsHold(jobs, runner, now, until, k - 1, e);
    }
  }

  lemma HeartbeatByTheColumns(s: State, runner: Runner, ttlSec: int)
    ensures Takes(s, Heartbeat(runner, ttlSec), Next(s, Heartbeat(runner, ttlSec)))
  {
    var until, t := LeaseUntil(s.now, ttlSec), Next(s, Heartbeat(runner, ttlSec));
    var events := BeatEvents(s.jobs, runner, s.now, until, |s.jobs|);
    assert t.history[|s.history|..] == events;
    forall e ensures e in events
      <==> exists i :: 0 <= i < |s.jobs| && LeasedBy(s.jobs[i], runner)
                       && e == Extended(s.jobs[i].id, runner.id, s.now, until)
    {
      BeatEventsHold(s.jobs, runner, s.now, until, |s.jobs|, e);
    }
  }

  lemma LeaseByTheColumns(s: State, runner: Runner, ttlSec: int)
    ensures Takes(s, Step.Lease(runner, ttlSec), Next(s, Step.Lease(runner, ttlSec)))
  {
    OpenIsFirstGrantable(s.jobs, runner, s.now);
  }

  lemma ReleaseByTheColumns(s: State, id: string, runner: Runner)
    ensures Takes(s, Release(id, runner), Next(s, Release(id, runner)))
  {
    forall i
      ensures OwnedAt(s.jobs, i, id, runner) <==> i == RowOf(s.jobs, id) && CanComplete(s.jobs, id, runner)
    {
      OwnedIsRowOf(s.jobs, id, runner, i);
    }
    assert CanRelease(s.jobs, id, runner) ==> OwnedAt(s.jobs, RowOf(s.jobs, id), id, runner);
  }

  lemma CheckByTheColumns(s: State, id: string, runner: Runner)
    ensures Takes(s, Check(id, runner), Next(s, Check(id, runner)))
  {
    forall i
      ensures OwnedAt(s.jobs, i, id, runner) <==> i == RowOf(s.jobs, id) && CanComplete(s.jobs, id, runner)
    {
      OwnedIsRowOf(s.jobs, id, runner, i);
    }
    assert PassesCheck(s.jobs, id, runner, s.now) ==> OwnedAt(s.jobs, RowOf(s.jobs, id), id, runner);
  }

  lemma WriteByTheColumns(s: State, id: string, runner: Runner, result: string)
    ensures Takes(s, Write(id, runner, result), Next(s, Write(id, runner, result)))
  {
    forall i
      ensures OwnedAt(s.jobs, i, id, runner) <==> i == RowOf(s.jobs, id) && CanComplete(s.jobs, id, runner)
    {
      OwnedIsRowOf(s.jobs, id, runner, i);
    }
    assert CanComplete(s.jobs, id, runner) ==> OwnedAt(s.jobs, RowOf(s.jobs, id), id, runner);
  }

  /** Every step of the protocol does to the rows what their columns say. */
  lemma StepsAreByTheColumns(s: State, step: Step)
    ensures Takes(s, step, Next(s, step))
  {
    match step
    case Lease(runner, ttlSec) =>
      LeaseByTheColumns(s, runner, ttlSec);
    case Heartbeat(runner, ttlSec) =>
      HeartbeatByTheColumns(s, runner, ttlSec);
    case Release(id, runner) =>
      ReleaseByTheColumns(s, id, runner);
    case Check(id, runner) =>
      CheckByTheColumns(s, id, runner);
    case Write(id, runner, result) =>
      WriteByTheColumns(s, id, runner, result);
    case _ =>
  }
}
