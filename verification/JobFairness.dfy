/** Priority aging prevents starvation: a job that waited two aging intervals is overtaken by no later job. */
module JobFairness {
  import opened Ordering
  import opened Agents
  import opened JobStore
  import opened JobInvariants
  import opened JobRuns
  import opened JobProtocol

  /** Queued earlier, ties broken by identifier. */
  predicate Before(a: WorkerJob, b: WorkerJob) {
    a.queuedAt < b.queuedAt || (a.queuedAt == b.queuedAt && StrLess(a.jobId, b.jobId))
  }

  /** The jobs waiting for the same workers that were queued before this one. */
  function Ahead(jobs: Jobs, job: WorkerJob): set<string> {
    set id | id in jobs && Waiting(jobs[id], job.tenantId, job.workerKind) && Before(jobs[id], job)
  }

  /** A well-formed lease request for the workers this job waits for. */
  predicate Asks(cmd: Command, job: WorkerJob) {
    SaneLease(cmd) && cmd.tenant == job.tenantId && cmd.kind == job.workerKind
  }

  predicate AgedAt(job: WorkerJob, cmd: Command)
    requires cmd.LeaseNext?
  {
    cmd.at >= job.queuedAt + 2 * cmd.agingInterval
  }

  lemma LevelsCapped(job: WorkerJob, at: Time, agingInterval: int)
    requires agingInterval > 0
    ensures EffectiveLevel(job, at, agingInterval) <= MAX_PRIORITY_LEVEL
    ensures at >= job.queuedAt + 2 * agingInterval ==>
              EffectiveLevel(job, at, agingInterval) == MAX_PRIORITY_LEVEL
  {
    if at >= job.queuedAt + 2 * agingInterval {
      var waited := at - job.queuedAt;
      DivideAtLeast(waited, agingInterval);
    }
  }

  lemma DivideAtLeast(waited: int, interval: int)
    requires interval > 0 && waited >= 2 * interval
    ensures waited / interval >= 2
  {
    var quotient, rest := waited / interval, waited % interval;
    assert waited == interval * quotient + rest;
  }

  /** Whatever a request leases while an aged job waits is that job or one queued before it. */
  lemma AgedIsNotOvertaken(jobs: Jobs, cmd: Command, id: string)
    requires WellKeyed(jobs) && id in jobs && Asks(cmd, jobs[id]) && AgedAt(jobs[id], cmd)
    requires jobs[id].phase.Queued?
    ensures var queue := Arrange(KeyLeq, LeaseKeys(jobs, cmd.tenant, cmd.kind, cmd.at, cmd.agingInterval));
            && queue != []
            && queue[0].queuedAt <= cmd.at
            && (queue[0].id == id || queue[0].id in Ahead(jobs, jobs[id]))
  {
    var keys := LeaseKeys(jobs, cmd.tenant, cmd.kind, cmd.at, cmd.agingInterval);
    assert LeaseKey(jobs[id], cmd.at, cmd.agingInterval) in keys;
    LeaseHead(jobs, cmd);
    var head := jobs[Arrange(KeyLeq, keys)[0].id];
    LevelsCapped(jobs[id], cmd.at, cmd.agingInterval);
    LevelsCapped(head, cmd.at, cmd.agingInterval);
    StrOrder();
  }

  /** Before operation `m` the job is stored exactly as it is here. */
  ghost predicate Waits(run: seq<Command>, m: nat, job: WorkerJob)
    requires m <= |run|
  {
    job.jobId in At(run, m) && At(run, m)[job.jobId] == job
  }

  /** A request for the workers the job waits for, made when the job has waited two aging intervals. */
  predicate AsksAged(cmd: Command, job: WorkerJob) {
    Asks(cmd, job) && AgedAt(job, cmd)
  }

  /** The aged requests among operations `i` to `k`. */
  ghost function Requests(run: seq<Command>, i: nat, k: nat, job: WorkerJob): nat
    requires i <= k <= |run|
    decreases k
  {
    if i == k then 0 else Requests(run, i, k - 1, job) + if AsksAged(run[k - 1], job) then 1 else 0
  }

  lemma WaitingIsFixed(cmd: Command, before: WorkerJob, after: WorkerJob)
    requires Moved(cmd, before, after) && before.phase.Queued?
    ensures after.phase.Queued? ==> after == before
    ensures !after.phase.Queued? ==> (cmd.LeaseNext? && after.phase.Leased?) || after.phase.Cancelled?
  {
  }

  /** A request that does not lease the waiting aged job takes one of the jobs ahead of it out of the queue. */
  lemma RequestShortensQueue(run: seq<Command>, m: nat, job: WorkerJob)
    requires m < |run| && job.phase.Queued? && Waits(run, m, job) && Waits(run, m + 1, job)
    requires AsksAged(run[m], job)
    ensures exists head :: head in Ahead(At(run, m), job) && head !in Ahead(At(run, m + 1), job)
  {
    var cmd, jobs := run[m], At(run, m);
    hide At, Arrange, KeyLeq, LeaseKeys, EffectiveLevel, Before;
    AgedIsNotOvertaken(jobs, cmd, job.jobId);
    HeadIsLeased(run, m);
    var head := Arrange(KeyLeq, LeaseKeys(jobs, cmd.tenant, cmd.kind, cmd.at, cmd.agingInterval))[0].id;
    assert head in Ahead(jobs, job);
  }

  /** A lease request that is not dated before the head of its queue leases that job. */
  lemma HeadIsLeased(run: seq<Command>, m: nat)
    requires m < |run| && SaneLease(run[m])
    requires var cmd := run[m];
             var queue := Arrange(KeyLeq, LeaseKeys(At(run, m), cmd.tenant, cmd.kind, cmd.at, cmd.agingInterval));
             queue != [] && queue[0].queuedAt <= cmd.at
    ensures var cmd := run[m];
            var queue := Arrange(KeyLeq, LeaseKeys(At(run, m), cmd.tenant, cmd.kind, cmd.at, cmd.agingInterval));
            queue[0].id in At(run, m + 1) && At(run, m + 1)[queue[0].id].phase.Leased?
  {
    var cmd, jobs := run[m], At(run, m);
    var keys := LeaseKeys(jobs, cmd.tenant, cmd.kind, cmd.at, cmd.agingInterval);
    hide At, Arrange, KeyLeq, LeaseKeys, Apply;
    Unfold(run, m);
    LeaseRefusedExactly(run, m);
    QueueIs(keys);
    LeaseHead(jobs, cmd);
    LeasedByLease(cmd, jobs[Arrange(KeyLeq, keys)[0].id]);
  }

  lemma LeasedByLease(cmd: Command, job: WorkerJob)
    requires cmd.LeaseNext?
    ensures Apply(cmd, job).Ok? ==> Apply(cmd, job).value.phase.Leased? && Apply(cmd, job).value.jobId == job.jobId
  {
  }

  /** While an aged job keeps waiting and nobody is put in the queue before it, every request for its workers uses
      up one of the jobs ahead of it, whatever else is added behind it. */
  lemma {:induction false} QueueAheadDrains(run: seq<Command>, i: nat, k: nat, job: WorkerJob)
    requires i <= k <= |run| && job.phase.Queued?
    requires forall m :: i <= m <= k ==> Waits(run, m, job)
    requires forall m :: i <= m < k ==> Ahead(At(run, m + 1), job) <= Ahead(At(run, m), job)
    ensures Requests(run, i, k, job) + |Ahead(At(run, k), job)| <= |Ahead(At(run, i), job)|
    decreases k
  {
    hide Ahead, AsksAged, Waits;
    if i < k {
      QueueAheadDrains(run, i, k - 1, job);
      var earlier, later := Ahead(At(run, k - 1), job), Ahead(At(run, k), job);
      assert Ahead(At(run, k - 1 + 1), job) <= earlier;
      if AsksAged(run[k - 1], job) {
        assert Waits(run, k - 1, job) && Waits(run, k, job);
        RequestShortensQueue(run, k - 1, job);
        var head :| head in earlier && head !in later;
        Smaller(later, earlier - {head});
      } else {
        Smaller(later, earlier);
      }
    }
  }

  lemma {:induction false} Smaller(a: set<string>, b: set<string>)
    requires a <= b
    ensures |a| <= |b|
  {
    if a != {} {
      var x :| x in a;
      Smaller(a - {x}, b - {x});
    }
  }

  /** The job is cancelled in the store before operation `m`; a refused cancellation does not make it so. */
  ghost predicate CancelledAt(run: seq<Command>, m: nat, id: string)
    requires m <= |run|
  {
    id in At(run, m) && At(run, m)[id].phase.Cancelled?
  }

  lemma CancelledStays(run: seq<Command>, m: nat, id: string)
    requires m < |run| && CancelledAt(run, m, id)
    ensures CancelledAt(run, m + 1, id)
  {
    hide At;
    StepKeepsTerminal(run, m, id);
  }

  lemma StepKeepsWaiting(run: seq<Command>, m: nat, job: WorkerJob)
    requires m < |run| && job.phase.Queued? && Waits(run, m, job)
    requires !CancelledAt(run, m + 1, job.jobId) && !Grants(run, m, job.jobId)
    ensures Waits(run, m + 1, job)
  {
    hide At, Moved;
    JobMoves(run, m, job.jobId);
    WaitingIsFixed(run[m], job, At(run, m + 1)[job.jobId]);
  }

  lemma {:induction false} WaitsUntilGranted(run: seq<Command>, i: nat, k: nat, job: WorkerJob)
    requires i <= k <= |run| && job.phase.Queued? && Waits(run, i, job)
    requires !CancelledAt(run, k, job.jobId)
    requires forall m :: i <= m < k ==> !Grants(run, m, job.jobId)
    ensures forall m :: i <= m <= k ==> Waits(run, m, job)
    decreases k
  {
    hide *;
    if i < k {
      if CancelledAt(run, k - 1, job.jobId) { CancelledStays(run, k - 1, job.jobId); }
      WaitsUntilGranted(run, i, k - 1, job);
      StepKeepsWaiting(run, k - 1, job);
    }
  }

  /** No starvation: with `n` jobs ahead of it, a waiting job has been leased by the time `n + 1` aged requests for its
      workers have been made, unless it was cancelled, as long as nobody is put in the queue before it meanwhile. */
  lemma NoStarvation(run: seq<Command>, i: nat, k: nat, job: WorkerJob)
    requires i <= k <= |run| && job.phase.Queued? && Waits(run, i, job)
    requires forall m :: i <= m < k && Waits(run, m, job) && Waits(run, m + 1, job) ==>
                           Ahead(At(run, m + 1), job) <= Ahead(At(run, m), job)
    requires Requests(run, i, k, job) > |Ahead(At(run, i), job)|
    ensures CancelledAt(run, k, job.jobId) || exists m :: i <= m < k && Grants(run, m, job.jobId)
  {
    if !CancelledAt(run, k, job.jobId) && forall m :: i <= m < k ==> !Grants(run, m, job.jobId) {
      WaitsUntilGranted(run, i, k, job);
      forall m | i <= m < k ensures Ahead(At(run, m + 1), job) <= Ahead(At(run, m), job) {
        assert Waits(run, m, job) && Waits(run, m + 1, job);
      }
      QueueAheadDrains(run, i, k, job);
      assert false;
    }
  }
}
