/** The job table of the runner control plane: enqueue, lease, heartbeat, check, complete, release. */
module RunnerJobs {
  import opened Basics
  import opened TextOrder

  datatype JobStatus = Queued | Leased | Running | Terminal

  datatype Job = Job(id: string, workspace: string, status: JobStatus,
                     runner: Option<string>, expires: Option<int>, result: string, createdAt: int)

  datatype Runner = Runner(id: string, workspace: string)

  predicate OlderOrSame(a: Job, b: Job) {
    a.createdAt < b.createdAt || (a.createdAt == b.createdAt && AtMost(a.id, b.id))
  }

  /** Rows in ORDER BY created_at, id. */
  predicate Sorted(jobs: seq<Job>) {
    forall i, j :: 0 <= i < j < |jobs| ==> OlderOrSame(jobs[i], jobs[j])
  }

  predicate DistinctJobs(jobs: seq<Job>) {
    forall i, j :: 0 <= i < j < |jobs| ==> jobs[i].id != jobs[j].id
  }

  predicate Exists(jobs: seq<Job>, id: string) {
    exists i :: 0 <= i < |jobs| && jobs[i].id == id
  }

  /** Row of the job with this id, or the number of rows. */
  function RowOf(jobs: seq<Job>, id: string): (i: nat)
    ensures i <= |jobs|
    ensures i < |jobs| ==> jobs[i].id == id
    ensures forall k :: 0 <= k < i ==> jobs[k].id != id
  {
    if jobs == [] || jobs[0].id == id then 0 else 1 + RowOf(jobs[1..], id)
  }

  function LeaseUntil(now: int, ttlSec: int): int {
    now + Max(1, ttlSec)
  }

  /** A job is open for a runner if it is queued, or leased with an expiry that is absent or past. */
  predicate Grantable(job: Job, runner: Runner, now: int) {
    && job.workspace == runner.workspace
    && (job.status == Queued || (job.status == Leased && !(job.expires.Some? && job.expires.value > now)))
  }

  predicate HeldBy(job: Job, runner: Runner) {
    job.workspace == runner.workspace && job.runner == Some(runner.id)
  }

  // ---------- The statements ----------

  /** Where a new row goes: behind every row that is not newer. */
  function InsertPosition(jobs: seq<Job>, job: Job): (p: nat)
    ensures p <= |jobs|
    ensures p < |jobs| ==> !OlderOrSame(jobs[p], job)
    ensures forall k :: 0 <= k < p ==> OlderOrSame(jobs[k], job)
  {
    if jobs == [] || !OlderOrSame(jobs[0], job) then 0 else 1 + InsertPosition(jobs[1..], job)
  }

  function Insert(jobs: seq<Job>, job: Job): (r: seq<Job>)
    ensures |r| == |jobs| + 1
    ensures r[InsertPosition(jobs, job)] == job
    ensures forall k :: 0 <= k < InsertPosition(jobs, job) ==> r[k] == jobs[k]
    ensures forall k :: InsertPosition(jobs, job) < k < |r| ==> r[k] == jobs[k - 1]
  {
    var p := InsertPosition(jobs, job);
    jobs[..p] + [job] + jobs[p..]
  }

  function NewJob(id: string, workspace: string, now: int): Job {
    Job(id, workspace, Queued, None, None, "{}", now)
  }

  /** Row of the first grantable job from k on, or the number of rows. */
  function FirstGrantable(jobs: seq<Job>, runner: Runner, now: int, k: nat): (i: nat)
    requires k <= |jobs|
    ensures k <= i <= |jobs|
    ensures i < |jobs| ==> Grantable(jobs[i], runner, now)
    ensures forall j :: k <= j < i ==> !Grantable(jobs[j], runner, now)
    decreases |jobs| - k
  {
    if k == |jobs| || Grantable(jobs[k], runner, now) then k else FirstGrantable(jobs, runner, now, k + 1)
  }

  function Granting(job: Job, runner: Runner, until: int): Job {
    job.(status := Leased, runner := Some(runner.id), expires := Some(until))
  }

  function Releasing(job: Job): Job {
    job.(status := Queued, runner := None, expires := None)
  }

  function Completing(job: Job, status: JobStatus, result: string): Job {
    job.(status := status, result := result)
  }

  predicate Beats(job: Job, runner: Runner) {
    HeldBy(job, runner) && job.status == Leased
  }

  /** The heartbeat extends every lease that the runner still owns, expired or not. */
  function Beat(jobs: seq<Job>, runner: Runner, until: int): (r: seq<Job>)
    ensures |r| == |jobs|
    ensures forall i :: 0 <= i < |jobs| ==>
      r[i] == if Beats(jobs[i], runner) then jobs[i].(expires := Some(until)) else jobs[i]
  {
    seq(|jobs|, i requires 0 <= i < |jobs| =>
      if Beats(jobs[i], runner) then jobs[i].(expires := Some(until)) else jobs[i])
  }

  predicate CanComplete(jobs: seq<Job>, id: string, runner: Runner) {
    var i := RowOf(jobs, id);
    i < |jobs| && HeldBy(jobs[i], runner)
  }

  predicate CanRelease(jobs: seq<Job>, id: string, runner: Runner) {
    var i := RowOf(jobs, id);
    i < |jobs| && Beats(jobs[i], runner)
  }

  predicate PassesCheck(jobs: seq<Job>, id: string, runner: Runner, now: int) {
    var i := RowOf(jobs, id);
    i < |jobs| && Beats(jobs[i], runner) && !(jobs[i].expires.Some? && jobs[i].expires.value <= now)
  }

  /** No earlier row has the same id; ids are a primary key, so this is every row. */
  predicate IsFirst(jobs: seq<Job>, i: nat)
    requires i < |jobs|
  {
    forall j :: 0 <= j < i ==> jobs[j].id != jobs[i].id
  }

  /** Queued, or leased with an expiry that is missing or has come, in the runner's workspace. */
  predicate IsOpen(job: Job, runner: Runner, now: int) {
    && job.workspace == runner.workspace
    && (job.status == Queued || (job.status == Leased && (job.expires.None? || job.expires.value <= now)))
  }

  // ---------- The repository ----------

  class RunnerRepository {
    var jobs: seq<Job>

    constructor ()
      ensures jobs == []
    {
      jobs := [];
    }

    /** False stands for the integrity error on an id that is taken. */
    method EnqueueJob(workspaceId: string, jobId: string, now: int) returns (ok: bool)
      modifies this
      ensures ok <==> !Exists(old(jobs), jobId)
      ensures jobs == if !ok then old(jobs)
                      else Insert(old(jobs), Job(jobId, workspaceId, Queued, None, None, "{}", now))
    {
      if Exists(jobs, jobId) {
        return false;
      }
      jobs := Insert(jobs, NewJob(jobId, workspaceId, now));
      return true;
    }

    /** The first job of the runner's workspace that is queued or whose lease has run out. */
    method LeaseNextJob(runner: Runner, ttlSec: int, now: int) returns (leased: Option<Job>)
      modifies this
      ensures match leased
              case None => jobs == old(jobs) && forall j :: 0 <= j < |jobs| ==> !IsOpen(jobs[j], runner, now)
              case Some(job) =>
                exists i :: 0 <= i < |old(jobs)| && jobs == old(jobs)[i := job]
                            && IsOpen(old(jobs)[i], runner, now)
                            && (forall j :: 0 <= j < i ==> !IsOpen(old(jobs)[j], runner, now))
                            && job == old(jobs)[i].(status := Leased, runner := Some(runner.id),
                                                    expires := Some(now + if ttlSec > 1 then ttlSec else 1))
      ensures var i := FirstGrantable(old(jobs), runner, now, 0);
              if i < |old(jobs)| then
                && leased == Some(Granting(old(jobs)[i], runner, LeaseUntil(now, ttlSec)))
                && jobs == old(jobs)[i := leased.value]
              else leased == None && jobs == old(jobs)
    {
      var rows := jobs;
      var k := 0;
      while k < |rows|
        invariant 0 <= k <= |rows|
        invariant jobs == rows
        invariant FirstGrantable(rows, runner, now, 0) == FirstGrantable(rows, runner, now, k)
      {
        var job := rows[k];
        if job.workspace != runner.workspace || job.status !in {Queued, Leased} {
          k := k + 1;
          continue;
        }
        if job.status == Leased && job.expires.Some? && job.expires.value > now {
          k := k + 1;
          continue;
        }
        var granted := Granting(job, runner, LeaseUntil(now, ttlSec));
        jobs := rows[k := granted];
        return Some(granted);
      }
      return None;
    }

    method Heartbeat(runner: Runner, ttlSec: int, now: int)
      modifies this
      ensures jobs == Beat(old(jobs), runner, LeaseUntil(now, ttlSec))
      ensures |jobs| == |old(jobs)| && forall i :: 0 <= i < |jobs| ==>
                jobs[i] == if HeldBy(old(jobs)[i], runner) && old(jobs)[i].status == Leased
                           then old(jobs)[i].(expires := Some(now + Max(1, ttlSec))) else old(jobs)[i]
    {
      jobs := Beat(jobs, runner, LeaseUntil(now, ttlSec));
    }

    /** The owner's result and status are stored, and nothing else changes. The write carries no condition on the
        job's status: only workspace and owner must match. The endpoint always completes with the status terminal. */
    method CompleteJob(jobId: string, runner: Runner, result: string, status: JobStatus) returns (ok: bool)
      modifies this
      ensures ok <==> CanComplete(old(jobs), jobId, runner)
      ensures var i := RowOf(old(jobs), jobId);
              jobs == if ok then old(jobs)[i := Completing(old(jobs)[i], status, result)] else old(jobs)
      ensures ok <==> exists i :: 0 <= i < |old(jobs)| && old(jobs)[i].id == jobId && IsFirst(old(jobs), i)
                                  && old(jobs)[i].workspace == runner.workspace
                                  && old(jobs)[i].runner == Some(runner.id)
      ensures |jobs| == |old(jobs)| && forall i :: 0 <= i < |jobs| ==>
                var before, after := old(jobs)[i], jobs[i];
                && after.id == before.id && after.workspace == before.workspace && after.runner == before.runner
                && after.expires == before.expires && after.createdAt == before.createdAt
                && if ok && before.id == jobId && IsFirst(old(jobs), i)
                   then after.result == result && after.status == status
                   else after.result == before.result && after.status == before.status
    {
      var i := RowOf(jobs, jobId);
      if i == |jobs| || jobs[i].workspace != runner.workspace || jobs[i].runner != Some(runner.id) {
        return false;
      }
      jobs := jobs[i := Completing(jobs[i], status, result)];
      return true;
    }

    method ReleaseJob(jobId: string, runner: Runner) returns (ok: bool)
      modifies this
      ensures ok <==> CanRelease(old(jobs), jobId, runner)
      ensures var i := RowOf(old(jobs), jobId);
              jobs == if ok then old(jobs)[i := old(jobs)[i].(status := Queued, runner := None, expires := None)]
                      else old(jobs)
      ensures ok <==> exists i :: 0 <= i < |old(jobs)| && old(jobs)[i].id == jobId && IsFirst(old(jobs), i)
                                  && old(jobs)[i].workspace == runner.workspace
                                  && old(jobs)[i].runner == Some(runner.id) && old(jobs)[i].status == Leased
    {
      var i := RowOf(jobs, jobId);
      if i == |jobs| || !Beats(jobs[i], runner) {
        return false;
      }
      jobs := jobs[i := Releasing(jobs[i])];
      return true;
    }

    method RequireActiveLease(jobId: string, runner: Runner, now: int) returns (ok: bool)
      ensures ok <==> PassesCheck(jobs, jobId, runner, now)
      ensures ok <==> exists i :: 0 <= i < |jobs| && jobs[i].id == jobId && IsFirst(jobs, i)
                                  && jobs[i].workspace == runner.workspace && jobs[i].runner == Some(runner.id)
                                  && jobs[i].status == Leased
                                  && (jobs[i].expires.Some? ==> now < jobs[i].expires.value)
    {
      var i := RowOf(jobs, jobId);
      if i == |jobs| || jobs[i].workspace != runner.workspace || jobs[i].runner != Some(runner.id)
         || jobs[i].status != Leased {
        return false;
      }
      if jobs[i].expires.Some? && jobs[i].expires.value <= now {
        return false;
      }
      return true;
    }
  }

  // ---------- Oldest first ----------

  lemma OlderIsTransitive(a: Job, b: Job, c: Job)
    requires OlderOrSame(a, b) && OlderOrSame(b, c)
    ensures OlderOrSame(a, c)
  {
    if a.createdAt == b.createdAt == c.createdAt {
      AtMostIsTransitive(a.id, b.id, c.id);
    }
  }

  lemma NewerBehind(jobs: seq<Job>, job: Job, k: nat)
    requires Sorted(jobs) && InsertPosition(jobs, job) <= k < |jobs|
    ensures OlderOrSame(job, jobs[k])
  {
    var p := InsertPosition(jobs, job);
    AtMostIsTotal(jobs[p].id, job.id);
    if k > p {
      OlderIsTransitive(job, jobs[p], jobs[k]);
    }
  }

  lemma InsertKeepsOrder(jobs: seq<Job>, job: Job)
    requires Sorted(jobs)
    ensures Sorted(Insert(jobs, job))
  {
    var p := InsertPosition(jobs, job);
    var r := Insert(jobs, job);
    forall i, j | 0 <= i < j < |r| ensures OlderOrSame(r[i], r[j]) {
      if i == p {
        NewerBehind(jobs, job, j - 1);
      } else if j != p {
        assert OlderOrSame(jobs[if i < p then i else i - 1], jobs[if j < p then j else j - 1]);
      }
    }
  }

  /** A lease goes to the oldest grantable job of the workspace, and is refused only if every open job
      there has an unexpired lease. */
  lemma LeaseIsFifo(jobs: seq<Job>, runner: Runner, now: int)
    requires Sorted(jobs)
    ensures var i := FirstGrantable(jobs, runner, now, 0);
            if i < |jobs| then
              && Grantable(jobs[i], runner, now)
              && forall j :: 0 <= j < |jobs| && Grantable(jobs[j], runner, now) ==> OlderOrSame(jobs[i], jobs[j])
            else
              forall j :: 0 <= j < |jobs| && jobs[j].workspace == runner.workspace && jobs[j].status in {Queued, Leased}
                ==> jobs[j].status == Leased && jobs[j].expires.Some? && jobs[j].expires.value > now
  {
    var i := FirstGrantable(jobs, runner, now, 0);
    if i < |jobs| {
      AtMostIsReflexive(jobs[i].id);
    }
  }
}
