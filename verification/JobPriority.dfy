/** Which waiting job a lease takes: the priority classes and their aging, written out without levels or division. */
module JobPriority {
  import opened Ordering
  import opened Agents
  import opened JobStore
  import opened JobInvariants
  import opened JobRuns

  /** The job has waited at least this many whole aging intervals. */
  predicate WaitedFor(job: WorkerJob, intervals: nat, cmd: Command)
    requires cmd.LeaseNext?
  {
    cmd.at >= job.queuedAt + intervals * cmd.agingInterval
  }

  /** Interactive, or old enough to count as interactive: a standard job after one interval, a batch job after two. */
  predicate CountsInteractive(job: WorkerJob, cmd: Command)
    requires cmd.LeaseNext?
  {
    match job.priorityClass
    case Interactive => true
    case Standard => WaitedFor(job, 1, cmd)
    case Batch => WaitedFor(job, 2, cmd)
  }

  /** At least standard, or a batch job after one interval. */
  predicate CountsStandard(job: WorkerJob, cmd: Command)
    requires cmd.LeaseNext?
  {
    match job.priorityClass
    case Interactive => true
    case Standard => true
    case Batch => WaitedFor(job, 1, cmd)
  }

  predicate QueuedEarlier(a: WorkerJob, b: WorkerJob) {
    a.queuedAt < b.queuedAt || (a.queuedAt == b.queuedAt && StrLess(a.jobId, b.jobId))
  }

  /** `a` is leased before `b`. */
  predicate GoesBefore(a: WorkerJob, b: WorkerJob, cmd: Command)
    requires cmd.LeaseNext?
  {
    if CountsInteractive(a, cmd) != CountsInteractive(b, cmd) then CountsInteractive(a, cmd)
    else if CountsStandard(a, cmd) != CountsStandard(b, cmd) then CountsStandard(a, cmd)
    else QueuedEarlier(a, b)
  }

  /** The job waits for the workers of the request. */
  predicate WaitsFor(job: WorkerJob, cmd: Command)
    requires cmd.LeaseNext?
  {
    job.tenantId == cmd.tenant && job.workerKind == cmd.kind && job.phase.Queued?
  }

  lemma WholeIntervals(waited: int, interval: int)
    requires interval > 0
    ensures waited >= 0 ==> waited / interval >= 0
    ensures waited / interval >= 1 <==> waited >= interval
    ensures waited / interval >= 2 <==> waited >= 2 * interval
  {
    var quotient, rest := waited / interval, waited % interval;
    assert waited == interval * quotient + rest;
    if quotient >= 2 { assert interval * quotient >= interval * 2; }
    if quotient >= 1 { assert interval * quotient >= interval * 1; }
    if quotient <= 1 { assert interval * quotient <= interval * 1; }
    if quotient <= 0 { assert interval * quotient <= 0; }
    if quotient < 0 { assert interval * quotient <= interval * -1; }
  }

  /** The levels that the source computes come down to the two tests above. */
  lemma LevelIs(job: WorkerJob, cmd: Command)
    requires SaneLease(cmd)
    ensures EffectiveLevel(job, cmd.at, cmd.agingInterval)
            == if CountsInteractive(job, cmd) then 2 else if CountsStandard(job, cmd) then 1 else 0
  {
    var waited := if cmd.at - job.queuedAt > 0 then cmd.at - job.queuedAt else 0;
    WholeIntervals(waited, cmd.agingInterval);
  }

  lemma KeysInOrder(a: WorkerJob, b: WorkerJob, cmd: Command)
    requires SaneLease(cmd) && a.jobId != b.jobId
    ensures KeyLeq(LeaseKey(a, cmd.at, cmd.agingInterval), LeaseKey(b, cmd.at, cmd.agingInterval)) <==>
            GoesBefore(a, b, cmd)
    ensures GoesBefore(a, b, cmd) <==> !GoesBefore(b, a, cmd)
  {
    LevelIs(a, cmd);
    LevelIs(b, cmd);
    StrOrder();
    hide EffectiveLevel, WaitedFor;
  }

  /** The answered job waits for the workers of the request and goes before every other job that does; and so does no
      other, so this says which job it is. */
  lemma LeasedGoesFirst(jobs: Jobs, cmd: Command, id: string)
    requires WellKeyed(jobs) && SaneLease(cmd) && Step(jobs, cmd).1.One?
    ensures Step(jobs, cmd).1.job.jobId == id <==>
            && id in jobs && WaitsFor(jobs[id], cmd)
            && forall other :: other in jobs && other != id && WaitsFor(jobs[other], cmd) ==>
                                 GoesBefore(jobs[id], jobs[other], cmd)
  {
    var keys := LeaseKeys(jobs, cmd.tenant, cmd.kind, cmd.at, cmd.agingInterval);
    QueueIs(keys);
    LeaseHead(jobs, cmd);
    var head := Arrange(KeyLeq, keys)[0].id;
    LeasedIsHead(cmd, jobs[head]);
    hide Apply, Arrange, KeyLeq, LeaseKey, LeaseKeys, GoesBefore;
    forall other | other in jobs && other != head && WaitsFor(jobs[other], cmd)
      ensures GoesBefore(jobs[head], jobs[other], cmd) && !GoesBefore(jobs[other], jobs[head], cmd)
    {
      KeysInOrder(jobs[head], jobs[other], cmd);
    }
  }

  lemma LeasedIsHead(cmd: Command, job: WorkerJob)
    requires cmd.LeaseNext?
    ensures Apply(cmd, job).Ok? ==> Apply(cmd, job).value.jobId == job.jobId
  {
  }

  /** What this means for the classes, of the job that is leased and any other that waits. */
  lemma ClassesGoFirst(jobs: Jobs, cmd: Command, other: string)
    requires WellKeyed(jobs) && SaneLease(cmd) && Step(jobs, cmd).1.One?
    requires other in jobs && WaitsFor(jobs[other], cmd) && other != Step(jobs, cmd).1.job.jobId
    ensures Step(jobs, cmd).1.job.jobId in jobs
    // While neither has waited a whole interval, interactive goes before standard, and standard before batch.
    ensures var leased, left := jobs[Step(jobs, cmd).1.job.jobId], jobs[other];
      !WaitedFor(leased, 1, cmd) && !WaitedFor(left, 1, cmd) ==>
        && (left.priorityClass.Interactive? ==> leased.priorityClass.Interactive?)
        && (left.priorityClass.Standard? ==> !leased.priorityClass.Batch?)
        && (left.priorityClass == leased.priorityClass ==> QueuedEarlier(leased, left))
    // A job is overtaken by one queued later only if that one is in a strictly higher class.
    ensures var leased, left := jobs[Step(jobs, cmd).1.job.jobId], jobs[other];
      QueuedEarlier(left, leased) ==>
        || (leased.priorityClass.Interactive? && !left.priorityClass.Interactive?)
        || (leased.priorityClass.Standard? && left.priorityClass.Batch?)
    // A job that has waited one whole interval ranks with a fresh one of the next class, and goes first for its age.
    ensures var leased, left := jobs[Step(jobs, cmd).1.job.jobId], jobs[other];
      WaitedFor(left, 1, cmd) && !WaitedFor(leased, 1, cmd) ==>
        && (left.priorityClass.Batch? ==> leased.priorityClass.Interactive?)
        && left.priorityClass.Batch?
        && !WaitedFor(left, 2, cmd)
    // A lower class goes before a higher one only after one whole interval a class.
    ensures var leased, left := jobs[Step(jobs, cmd).1.job.jobId], jobs[other];
      && (leased.priorityClass.Batch? && left.priorityClass.Interactive? ==> WaitedFor(leased, 2, cmd))
      && (leased.priorityClass.Batch? && left.priorityClass.Standard? ==> WaitedFor(leased, 1, cmd))
      && (leased.priorityClass.Standard? && left.priorityClass.Interactive? ==> WaitedFor(leased, 1, cmd))
  {
    LeasedGoesFirst(jobs, cmd, Step(jobs, cmd).1.job.jobId);
    StrOrder();
    hide Step;
  }
}
