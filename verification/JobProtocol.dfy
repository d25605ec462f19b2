/** The lease protocol over whole runs: fencing tokens, terminal jobs, the lease promise, and the recovery budget. */
module JobProtocol {
  import opened Prelude
  import opened Agents
  import opened JobStore
  import opened JobInvariants
  import opened JobRuns

  // Fencing.

  /** The lease with this generation is over: a later one exists, or the job is no longer leased. */
  predicate LeaseOver(job: WorkerJob, generation: int) {
    job.leaseGeneration > generation || (job.leaseGeneration == generation && !ActivePhase(job.phase))
  }

  lemma MoveKeepsLeaseOver(cmd: Command, before: WorkerJob, after: WorkerJob, generation: int)
    requires Moved(cmd, before, after) && LeaseOver(before, generation)
    ensures LeaseOver(after, generation)
  {
  }

  lemma {:induction false} LeaseStaysOver(run: seq<Command>, i: nat, k: nat, id: string, generation: int)
    requires i <= k <= |run| && id in At(run, i) && LeaseOver(At(run, i)[id], generation)
    ensures id in At(run, k) && LeaseOver(At(run, k)[id], generation)
    decreases k
  {
    hide *;
    if i < k {
      LeaseStaysOver(run, i, k - 1, id, generation);
      JobMoves(run, k - 1, id);
      MoveKeepsLeaseOver(run[k - 1], At(run, k - 1)[id], At(run, k)[id], generation);
    }
  }

  lemma RefusedAfterwards(cmd: Command, job: WorkerJob, generation: int)
    requires LeaseOver(job, generation) && Fenced(cmd) && cmd.generation == generation
    ensures Apply(cmd, job) == Err(StaleLease)
  {
  }

  /** Once a lease has ended, every later operation that carries its generation is refused and changes nothing. */
  lemma FencedForever(run: seq<Command>, i: nat, k: nat, id: string, generation: int)
    requires i <= k < |run| && id in At(run, i) && LeaseOver(At(run, i)[id], generation)
    requires Fenced(run[k]) && run[k].jobId == id && run[k].generation == generation
    ensures ReplyOf(run, k).Rejected? && ReplyOf(run, k).error in {StaleLease, NotFound}
    ensures At(run, k + 1) == At(run, k)
  {
    LeaseStaysOver(run, i, k, id, generation);
    Unfold(run, k);
    RefusedAfterwards(run[k], At(run, k)[id], generation);
    hide Apply, LeaseOver, At;
  }

  /** Operation `i` grants a lease on the job. */
  ghost predicate Grants(run: seq<Command>, i: nat, id: string)
    requires i < |run|
  {
    && id in At(run, i) && id in At(run, i + 1)
    && At(run, i)[id].phase.Queued? && At(run, i + 1)[id].phase.Leased?
  }

  lemma MoveKeepsGeneration(cmd: Command, before: WorkerJob, after: WorkerJob)
    requires Moved(cmd, before, after)
    ensures before.leaseGeneration <= after.leaseGeneration
  {
  }

  lemma {:induction false} GenerationsNeverDecrease(run: seq<Command>, i: nat, k: nat, id: string)
    requires i <= k <= |run| && id in At(run, i)
    ensures id in At(run, k) && At(run, i)[id].leaseGeneration <= At(run, k)[id].leaseGeneration
    decreases k
  {
    hide *;
    if i < k {
      GenerationsNeverDecrease(run, i, k - 1, id);
      JobMoves(run, k - 1, id);
      MoveKeepsGeneration(run[k - 1], At(run, k - 1)[id], At(run, k)[id]);
    }
  }

  lemma MoveGrants(cmd: Command, before: WorkerJob, after: WorkerJob)
    requires Moved(cmd, before, after) && before.phase.Queued? && after.phase.Leased?
    ensures cmd.LeaseNext? && after.leaseOwner == Some(cmd.owner)
    ensures after.leaseGeneration == before.leaseGeneration + 1
  {
  }

  /** Every grant takes a generation larger than any the job has had, in particular than that of any earlier grant. */
  lemma GrantsAreFresh(run: seq<Command>, i: nat, k: nat, id: string)
    requires i <= k < |run| && id in At(run, i) && Grants(run, k, id)
    ensures At(run, i)[id].leaseGeneration < At(run, k + 1)[id].leaseGeneration
    ensures i < k && Grants(run, i, id) ==> At(run, i + 1)[id].leaseGeneration < At(run, k + 1)[id].leaseGeneration
    ensures run[k].LeaseNext? && At(run, k + 1)[id].leaseOwner == Some(run[k].owner)
  {
    GenerationsNeverDecrease(run, i, k, id);
    hide Moved, At;
    if i < k && Grants(run, i, id) { GenerationsNeverDecrease(run, i + 1, k, id); }
    JobMoves(run, k, id);
    MoveGrants(run[k], At(run, k)[id], At(run, k + 1)[id]);
  }

  // Terminal jobs.

  lemma MoveKeepsTerminal(cmd: Command, before: WorkerJob, after: WorkerJob)
    requires Moved(cmd, before, after) && TerminalPhase(before.phase)
    ensures after == before
  {
  }

  lemma StepKeepsTerminal(run: seq<Command>, m: nat, id: string)
    requires m < |run| && id in At(run, m) && TerminalPhase(At(run, m)[id].phase)
    ensures id in At(run, m + 1) && At(run, m + 1)[id] == At(run, m)[id]
  {
    hide At;
    JobMoves(run, m, id);
    MoveKeepsTerminal(run[m], At(run, m)[id], At(run, m + 1)[id]);
    hide Moved;
  }

  lemma {:induction false} TerminalFrozen(run: seq<Command>, i: nat, k: nat, id: string)
    requires i <= k <= |run| && id in At(run, i) && TerminalPhase(At(run, i)[id].phase)
    ensures id in At(run, k) && At(run, k)[id] == At(run, i)[id]
    decreases k
  {
    hide *;
    if i < k {
      TerminalFrozen(run, i, k - 1, id);
      StepKeepsTerminal(run, k - 1, id);
    }
  }

  /** Operation `i` writes a terminal snapshot of the job. */
  ghost predicate WritesTerminal(run: seq<Command>, i: nat, id: string)
    requires i < |run|
  {
    && id in At(run, i + 1) && TerminalPhase(At(run, i + 1)[id].phase)
    && (id in At(run, i) ==> At(run, i)[id] != At(run, i + 1)[id])
  }

  lemma OneTerminalWrite(run: seq<Command>, i: nat, k: nat, id: string)
    requires i < |run| && k < |run| && WritesTerminal(run, i, id) && WritesTerminal(run, k, id)
    ensures i == k
  {
    hide At, TerminalPhase;
    if i < k {
      TerminalFrozen(run, i + 1, k, id);
      TerminalFrozen(run, i + 1, k + 1, id);
    } else if k < i {
      TerminalFrozen(run, k + 1, i, id);
      TerminalFrozen(run, k + 1, i + 1, id);
    }
  }

  // The lease promise.

  /** The job is leased to this owner under this generation until `until` at least. */
  predicate LeasedUntil(job: WorkerJob, owner: string, generation: int, until: Time) {
    && ActivePhase(job.phase)
    && job.leaseOwner == Some(owner) && job.leaseGeneration == generation
    && job.leaseExpiresAt.Some? && until <= job.leaseExpiresAt.value
  }

  /** The operation by which a lease holder gives up its own lease on this job. */
  predicate GivesUp(cmd: Command, job: WorkerJob, owner: string, generation: int) {
    && (cmd.Pause? || cmd.Succeed? || cmd.Fail? || cmd.CancelOwned?)
    && cmd.jobId == job.jobId && cmd.tenant == job.tenantId
    && cmd.owner == owner && cmd.generation == generation
  }

  /** Operation `m` gives the lease up: it is the holder's own, within the job's tenant, and the store accepted it. */
  ghost predicate GaveUp(run: seq<Command>, m: nat, id: string, owner: string, generation: int)
    requires m < |run|
  {
    id in At(run, m) && GivesUp(run[m], At(run, m)[id], owner, generation) && ReplyOf(run, m).One?
  }

  predicate RunsBefore(cmd: Command, until: Time) {
    !cmd.Add? ==> cmd.at < until
  }

  lemma MoveKeepsLease(cmd: Command, before: WorkerJob, after: WorkerJob, owner: string, generation: int, until: Time)
    requires Moved(cmd, before, after) && LeasedUntil(before, owner, generation, until) && RunsBefore(cmd, until)
    ensures after == before || LeasedUntil(after, owner, generation, until) || GivesUp(cmd, before, owner, generation)
  {
  }

  lemma GivingUpEndsLease(cmd: Command, before: WorkerJob, owner: string, generation: int)
    requires GivesUp(cmd, before, owner, generation) && Apply(cmd, before).Ok?
    ensures LeaseOver(Apply(cmd, before).value, generation)
  {
  }

  /** An operation on a named job that changes it has answered with the new snapshot. */
  lemma ChangeIsAnswered(jobs: Jobs, cmd: Command)
    requires WellKeyed(jobs) && Targeted(cmd)
    ensures Step(jobs, cmd).1.One? ==>
              && cmd.jobId in jobs && cmd.tenant == jobs[cmd.jobId].tenantId
              && Apply(cmd, jobs[cmd.jobId]) == Ok(Step(jobs, cmd).1.job)
              && Step(jobs, cmd).0 == jobs[Step(jobs, cmd).1.job.jobId := Step(jobs, cmd).1.job]
    ensures !Step(jobs, cmd).1.One? ==> Step(jobs, cmd).0 == jobs
  {
    hide Apply;
  }

  lemma StepKeepsLease(run: seq<Command>, m: nat, id: string, owner: string, generation: int, until: Time)
    requires m < |run| && id in At(run, m) && LeasedUntil(At(run, m)[id], owner, generation, until)
    requires RunsBefore(run[m], until) && !GaveUp(run, m, id, owner, generation)
    ensures id in At(run, m + 1) && LeasedUntil(At(run, m + 1)[id], owner, generation, until)
    ensures !Grants(run, m, id)
  {
    assert ActivePhase(At(run, m)[id].phase);
    hide LeasedUntil, At, Apply, Step;
    JobMoves(run, m, id);
    MoveKeepsLease(run[m], At(run, m)[id], At(run, m + 1)[id], owner, generation, until);
    hide Moved;
    Unfold(run, m);
    if GivesUp(run[m], At(run, m)[id], owner, generation) { ChangeIsAnswered(At(run, m), run[m]); }
  }

  lemma GaveUpIsOver(run: seq<Command>, m: nat, id: string, owner: string, generation: int)
    requires m < |run| && GaveUp(run, m, id, owner, generation)
    ensures id in At(run, m + 1) && LeaseOver(At(run, m + 1)[id], generation)
  {
    hide At, Apply, Step, LeaseOver;
    Unfold(run, m);
    ChangeIsAnswered(At(run, m), run[m]);
    GivingUpEndsLease(run[m], At(run, m)[id], owner, generation);
    ApplyResult(run[m], At(run, m)[id]);
  }

  /** Nobody between operations `i` and `k` gave the lease up. */
  ghost predicate Kept(run: seq<Command>, i: nat, k: nat, id: string, owner: string, generation: int)
    requires k <= |run|
  {
    forall m :: i <= m < k ==> !GaveUp(run, m, id, owner, generation)
  }

  lemma {:induction false} KeptLeaseLasts(run: seq<Command>, i: nat, k: nat, id: string,
                                          owner: string, generation: int, until: Time)
    requires i <= k <= |run| && id in At(run, i) && LeasedUntil(At(run, i)[id], owner, generation, until)
    requires forall m :: i <= m < k ==> RunsBefore(run[m], until)
    requires forall m :: i <= m < k ==> !GaveUp(run, m, id, owner, generation)
    ensures id in At(run, k) && LeasedUntil(At(run, k)[id], owner, generation, until)
    ensures forall m :: i <= m < k ==> !Grants(run, m, id)
    decreases k
  {
    hide *;
    if i < k {
      KeptLeaseLasts(run, i, k - 1, id, owner, generation, until);
      StepKeepsLease(run, k - 1, id, owner, generation, until);
    }
  }

  /** The lease promise. Of a lease shown to last until `until`, as long as every operation runs before `until`: it is
      still in force exactly if no accepted operation of its own holder gave it up, and then the job has not been
      granted again. A refused attempt to give it up, another owner or generation, another tenant, cancellation from
      outside and recovery leave it in force. */
  lemma LeasePromise(run: seq<Command>, i: nat, k: nat, id: string, owner: string, generation: int, until: Time)
    requires i <= k <= |run| && id in At(run, i) && LeasedUntil(At(run, i)[id], owner, generation, until)
    requires forall m :: i <= m < k ==> RunsBefore(run[m], until)
    ensures id in At(run, k)
    ensures LeasedUntil(At(run, k)[id], owner, generation, until) <==> Kept(run, i, k, id, owner, generation)
    ensures Kept(run, i, k, id, owner, generation) ==> forall m :: i <= m < k ==> !Grants(run, m, id)
  {
    hide *;
    JobsStay(run, i, k, id);
    if Kept(run, i, k, id, owner, generation) {
      KeptIs(run, i, k, id, owner, generation);
      KeptLeaseLasts(run, i, k, id, owner, generation, until);
    } else {
      var m := GivenUpAt(run, i, k, id, owner, generation);
      GaveUpIsOver(run, m, id, owner, generation);
      LeaseStaysOver(run, m + 1, k, id, generation);
      OverIsNotLeased(At(run, k)[id], owner, generation, until);
    }
  }

  lemma KeptIs(run: seq<Command>, i: nat, k: nat, id: string, owner: string, generation: int)
    requires k <= |run| && Kept(run, i, k, id, owner, generation)
    ensures forall m :: i <= m < k ==> !GaveUp(run, m, id, owner, generation)
  {
  }

  lemma GivenUpAt(run: seq<Command>, i: nat, k: nat, id: string, owner: string, generation: int) returns (m: nat)
    requires k <= |run| && !Kept(run, i, k, id, owner, generation)
    ensures i <= m < k && GaveUp(run, m, id, owner, generation)
  {
    hide GaveUp;
    m :| i <= m < k && GaveUp(run, m, id, owner, generation);
  }

  lemma OverIsNotLeased(job: WorkerJob, owner: string, generation: int, until: Time)
    requires LeaseOver(job, generation)
    ensures !LeasedUntil(job, owner, generation, until)
  {
  }

  /** The promise as the worker hears it: the answer to its lease, start or renewal names an expiry, and while the
      clock reads less than this expiry and no accepted operation of the worker gave the lease up, its next owned
      operation passes the fence. */
  lemma PromiseHeard(run: seq<Command>, i: nat, k: nat, now: Time)
    requires i < k <= |run|
    requires run[i].LeaseNext? || run[i].MarkRunning? || run[i].RenewLease?
    requires ReplyOf(run, i).One?
    requires var told := ReplyOf(run, i).job;
             && told.leaseOwner.Some? && told.leaseExpiresAt.Some?
             && (forall m :: i < m < k && !run[m].Add? ==> run[m].at <= now)
             && now < told.leaseExpiresAt.value
             && Kept(run, i + 1, k, told.jobId, told.leaseOwner.value, told.leaseGeneration)
    ensures var told := ReplyOf(run, i).job;
            && told.jobId in At(run, k)
            && OwnsLease(At(run, k)[told.jobId], told.leaseOwner.value, told.leaseGeneration, now)
            && (forall m :: i < m < k ==> !Grants(run, m, told.jobId))
  {
    var told := ReplyOf(run, i).job;
    Unfold(run, i);
    ToldIsStored(At(run, i), run[i]);
    hide Step, Apply, At, Grants, Kept;
    LeasePromise(run, i + 1, k, told.jobId, told.leaseOwner.value, told.leaseGeneration, told.leaseExpiresAt.value);
  }

  lemma ToldIsStored(jobs: Jobs, cmd: Command)
    requires WellKeyed(jobs) && (cmd.LeaseNext? || cmd.MarkRunning? || cmd.RenewLease?)
    requires Step(jobs, cmd).1.One?
    ensures var told := Step(jobs, cmd).1.job;
            var after := Step(jobs, cmd).0;
            && told.jobId in after && after[told.jobId] == told && ActivePhase(told.phase)
            && told.leaseOwner.Some? && told.leaseExpiresAt.Some?
  {
  }

  // The recovery budget.

  predicate Requeued(before: WorkerJob, after: WorkerJob) {
    ActivePhase(before.phase) && after.phase.Queued?
  }

  predicate Exhausted(before: WorkerJob, after: WorkerJob) {
    ActivePhase(before.phase) && after.phase.Failed? && after.recoveryCount != before.recoveryCount
  }

  predicate Resumed(before: WorkerJob, after: WorkerJob) {
    before.phase.Paused? && after.phase.Queued?
  }

  /** How many of the first `i` operations did this to the job. */
  ghost function Count(run: seq<Command>, i: nat, id: string, event: (WorkerJob, WorkerJob) -> bool): nat
    requires i <= |run|
  {
    if i == 0 then 0
    else
      Count(run, i - 1, id, event) +
      (if id in At(run, i - 1) && id in At(run, i) && event(At(run, i - 1)[id], At(run, i)[id]) then 1 else 0)
  }

  lemma {:induction false} NoEventsBeforeAdd(run: seq<Command>, i: nat, id: string,
                                             event: (WorkerJob, WorkerJob) -> bool)
    requires i <= |run| && (i > 0 ==> id !in At(run, i - 1))
    ensures Count(run, i, id, event) == 0
    decreases i
  {
    if i > 0 {
      if i > 1 && id in At(run, i - 2) { JobsStay(run, i - 2, i - 1, id); }
      NoEventsBeforeAdd(run, i - 1, id, event);
    }
  }

  function Occurs(event: bool): nat {
    if event then 1 else 0
  }

  /** Every lease the job has had was ended by a re-queueing recovery or by a pause that was resumed, except the one
      it holds, is paused under, or finished with. A cancelled job may have been cancelled with or without one. */
  predicate LeasesAccounted(job: WorkerJob, requeues: nat, resumes: nat) {
    match job.phase
    case Queued => job.leaseGeneration == requeues + resumes
    case Cancelled => requeues + resumes <= job.leaseGeneration <= requeues + resumes + 1
    case _ => job.leaseGeneration == requeues + resumes + 1
  }

  /** Recoveries stay within the budget; the one that reaches it, and only that one, ends the job as exhausted. */
  predicate WithinBudget(job: WorkerJob, requeues: nat, exhaustions: nat) {
    && job.recoveryCount == requeues + exhaustions <= job.maxRecoveryAttempts
    && exhaustions <= 1
    && (exhaustions == 1 <==> job.recoveryCount == job.maxRecoveryAttempts)
    && (exhaustions == 1 ==> job.phase.Failed? && job.errorCode == Some(WORKER_RECOVERY_EXHAUSTED))
  }

  lemma MoveAccountsLeases(cmd: Command, before: WorkerJob, after: WorkerJob, requeues: nat, resumes: nat)
    requires Moved(cmd, before, after) && LeasesAccounted(before, requeues, resumes)
    ensures LeasesAccounted(after, requeues + Occurs(Requeued(before, after)), resumes + Occurs(Resumed(before, after)))
  {
  }

  lemma MoveKeepsBudget(cmd: Command, before: WorkerJob, after: WorkerJob, requeues: nat, exhaustions: nat)
    requires Sound(before) && Moved(cmd, before, after) && WithinBudget(before, requeues, exhaustions)
    ensures WithinBudget(after, requeues + Occurs(Requeued(before, after)),
                         exhaustions + Occurs(Exhausted(before, after)))
  {
  }

  lemma CountGrows(run: seq<Command>, i: nat, id: string, event: (WorkerJob, WorkerJob) -> bool)
    requires i < |run| && id in At(run, i) && id in At(run, i + 1)
    ensures Count(run, i + 1, id, event) == Count(run, i, id, event) + Occurs(event(At(run, i)[id], At(run, i + 1)[id]))
  {
    hide At;
  }

  lemma FreshIsAccounted(job: WorkerJob)
    requires Fresh(job)
    ensures LeasesAccounted(job, 0, 0)
  {
  }

  lemma FreshIsWithinBudget(job: WorkerJob)
    requires Fresh(job)
    ensures WithinBudget(job, 0, 0)
  {
  }

  lemma {:induction false} GenerationsCount(run: seq<Command>, i: nat, id: string)
    requires i <= |run| && id in At(run, i)
    ensures LeasesAccounted(At(run, i)[id], Count(run, i, id, Requeued), Count(run, i, id, Resumed))
    decreases i
  {
    hide *;
    if i == 0 {
      EmptyAtFirst(run);
    } else {
      JobMoves(run, i - 1, id);
      if id in At(run, i - 1) {
        GenerationsCount(run, i - 1, id);
        MoveAccountsLeases(run[i - 1], At(run, i - 1)[id], At(run, i)[id],
                           Count(run, i - 1, id, Requeued), Count(run, i - 1, id, Resumed));
        CountGrows(run, i - 1, id, Requeued);
        CountGrows(run, i - 1, id, Resumed);
      } else {
        NoEventsBeforeAdd(run, i, id, Requeued);
        NoEventsBeforeAdd(run, i, id, Resumed);
        FreshIsAccounted(At(run, i)[id]);
      }
    }
  }

  lemma {:induction false} RecoveriesBounded(run: seq<Command>, i: nat, id: string)
    requires i <= |run| && id in At(run, i)
    ensures WithinBudget(At(run, i)[id], Count(run, i, id, Requeued), Count(run, i, id, Exhausted))
    decreases i
  {
    hide *;
    if i == 0 {
      EmptyAtFirst(run);
    } else {
      JobMoves(run, i - 1, id);
      if id in At(run, i - 1) {
        RecoveriesBounded(run, i - 1, id);
        ReachableIsSound(run, i - 1, id);
        MoveKeepsBudget(run[i - 1], At(run, i - 1)[id], At(run, i)[id],
                        Count(run, i - 1, id, Requeued), Count(run, i - 1, id, Exhausted));
        CountGrows(run, i - 1, id, Requeued);
        CountGrows(run, i - 1, id, Exhausted);
      } else {
        NoEventsBeforeAdd(run, i, id, Requeued);
        NoEventsBeforeAdd(run, i, id, Exhausted);
        FreshIsWithinBudget(At(run, i)[id]);
      }
    }
  }

  // What a job remembers.

  ghost predicate Touches(run: seq<Command>, i: nat, id: string)
    requires i < |run|
  {
    id in At(run, i) && id in At(run, i + 1) && At(run, i)[id] != At(run, i + 1)[id]
  }

  /** The checkpoint named by the last of the first `i` operations that was accepted for the job and named one. */
  ghost function LastCheckpoint(run: seq<Command>, i: nat, id: string): Option<string>
    requires i <= |run|
  {
    if i == 0 then None
    else if Touches(run, i - 1, id) && (run[i - 1].MarkRunning? || run[i - 1].Pause?) then Some(run[i - 1].checkpoint)
    else if Touches(run, i - 1, id) && run[i - 1].CancelOwned? && run[i - 1].safePoint.Some? then run[i - 1].safePoint
    else LastCheckpoint(run, i - 1, id)
  }

  /** The instant of the first of the first `i` operations that was accepted to start the job. */
  ghost function FirstStart(run: seq<Command>, i: nat, id: string): Option<Time>
    requires i <= |run|
  {
    if i == 0 then None
    else if FirstStart(run, i - 1, id).Some? then FirstStart(run, i - 1, id)
    else if Touches(run, i - 1, id) && run[i - 1].MarkRunning? then Some(run[i - 1].at)
    else None
  }

  lemma MoveRemembers(cmd: Command, before: WorkerJob, after: WorkerJob)
    requires Moved(cmd, before, after) && after != before
    ensures after.checkpointRef == if cmd.MarkRunning? || cmd.Pause? then Some(cmd.checkpoint)
                                   else if cmd.CancelOwned? && cmd.safePoint.Some? then cmd.safePoint
                                   else before.checkpointRef
    ensures after.startedAt == if before.startedAt.None? && cmd.MarkRunning? then Some(cmd.at) else before.startedAt
  {
  }

  lemma {:induction false} NothingBeforeAdd(run: seq<Command>, i: nat, id: string)
    requires i <= |run| && (i > 0 ==> id !in At(run, i - 1))
    ensures LastCheckpoint(run, i, id).None? && FirstStart(run, i, id).None?
    decreases i
  {
    if i > 0 {
      if i > 1 && id in At(run, i - 2) { JobsStay(run, i - 2, i - 1, id); }
      NothingBeforeAdd(run, i - 1, id);
    }
  }

  /** Through pauses, resumptions, recoveries and new leases a job keeps the checkpoint last reported for it and the
      instant at which it was first started. */
  lemma {:induction false} JobRemembers(run: seq<Command>, i: nat, id: string)
    requires i <= |run| && id in At(run, i)
    ensures At(run, i)[id].checkpointRef == LastCheckpoint(run, i, id)
    ensures At(run, i)[id].startedAt == FirstStart(run, i, id)
    decreases i
  {
    if i > 0 {
      JobMoves(run, i - 1, id);
      if id in At(run, i - 1) {
        JobRemembers(run, i - 1, id);
        if Touches(run, i - 1, id) { MoveRemembers(run[i - 1], At(run, i - 1)[id], At(run, i)[id]); }
      } else {
        NothingBeforeAdd(run, i, id);
      }
      hide Moved;
    }
  }

  /** What a terminal write records, operation by operation; a job ends in no other way. An exhausted recovery ends
      it with its own error code and the last recovery counted. */
  predicate Records(cmd: Command, before: WorkerJob, after: WorkerJob) {
    && !cmd.Add? && after.finishedAt == Some(cmd.at)
    && (after.phase.Succeeded? <==> cmd.Succeed?)
    && (after.phase.Failed? <==> cmd.Fail? || cmd.RecoverExpired?)
    && (after.phase.Cancelled? <==> cmd.CancelWaiting? || cmd.CancelOwned?)
    && (cmd.Succeed? ==> after.resultRef == Some(cmd.result) && before.phase.Running?)
    && (cmd.Fail? ==> after.errorCode == Some(cmd.error) && after.resultRef == cmd.partial)
    && (cmd.RecoverExpired? ==>
          && after.errorCode == Some(WORKER_RECOVERY_EXHAUSTED) && after.resultRef == before.resultRef
          && after.recoveryCount == before.recoveryCount + 1 == before.maxRecoveryAttempts)
    && (cmd.CancelWaiting? || cmd.CancelOwned? ==> after.errorCode == cmd.reason && after.resultRef.None?)
    && (Fenced(cmd) ==> OwnsLease(before, cmd.owner, cmd.generation, cmd.at))
    && (cmd.CancelWaiting? ==> !ActivePhase(before.phase))
  }

  lemma MoveRecords(cmd: Command, before: WorkerJob, after: WorkerJob)
    requires Moved(cmd, before, after) && after != before && TerminalPhase(after.phase)
    ensures Records(cmd, before, after)
  {
  }

  lemma TerminalRecord(run: seq<Command>, i: nat, id: string)
    requires i < |run| && WritesTerminal(run, i, id)
    ensures id in At(run, i) && Records(run[i], At(run, i)[id], At(run, i + 1)[id])
  {
    JobMoves(run, i, id);
    if id in At(run, i) { MoveRecords(run[i], At(run, i)[id], At(run, i + 1)[id]); }
    hide Moved, Records;
  }
}
