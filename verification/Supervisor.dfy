/** The supervisor: it reads the clock once per command and drives the store with fixed lease and aging durations. */
module Supervision {
  import opened Prelude
  import opened Ordering
  import opened Agents
  import opened JobStore
  import opened JobInvariants
  import opened JobRuns
  import opened InMemoryStore

  /** Recover the expired leases of these workers, then lease one job, both at the same clock reading. */
  ghost function SupervisedLease(jobs: Jobs, tenant: string, kind: WorkerKind, owner: string, now: Time,
                                 leaseDuration: int, agingInterval: int): (Jobs, Reply)
    requires WellKeyed(jobs)
  {
    if tenant == "" || owner == "" then (jobs, Rejected(ValueError)) else
      var recovery := RecoverExpired(tenant, kind, now);
      var (recovered, reply) := Step(jobs, recovery);
      StepMoves(jobs, recovery);
      if reply.Rejected? then (jobs, reply)
      else Step(recovered, LeaseNext(tenant, kind, owner, now, now + leaseDuration, agingInterval))
  }

  class Supervisor {
    const store: InMemoryJobStore
    const leaseDuration: int
    const agingInterval: int

    ghost predicate Valid()
      reads this, store
    {
      store.Valid() && leaseDuration > 0 && agingInterval > 0
    }

    constructor (store: InMemoryJobStore, leaseDuration: int, agingInterval: int)
      requires store.Valid() && leaseDuration > 0 && agingInterval > 0
      ensures Valid() && this.store == store
      ensures this.leaseDuration == leaseDuration && this.agingInterval == agingInterval
    {
      this.store := store;
      this.leaseDuration := leaseDuration;
      this.agingInterval := agingInterval;
    }

    method LeaseNext(tenant: string, kind: WorkerKind, owner: string, now: Time) returns (reply: Reply)
      requires Valid()
      modifies store
      ensures Valid()
      ensures (store.jobs, reply)
              == SupervisedLease(old(store.jobs), tenant, kind, owner, now, leaseDuration, agingInterval)
    {
      hide Step;
      if tenant == "" || owner == "" { return Rejected(ValueError); }
      ghost var before := store.jobs;
      StepMoves(before, RecoverExpired(tenant, kind, now));
      reply := store.RecoverExpired(tenant, kind, now);
      if reply.Rejected? {
        RejectedChangesNothing(before, RecoverExpired(tenant, kind, now));
        return;
      }
      reply := store.LeaseNext(tenant, kind, owner, now, now + leaseDuration, agingInterval);
    }

    method Heartbeat(tenant: string, jobId: string, owner: string, generation: int, now: Time) returns (reply: Reply)
      requires Valid()
      modifies store
      ensures Valid()
      ensures (store.jobs, reply)
              == Step(old(store.jobs), RenewLease(tenant, jobId, owner, generation, now, now + leaseDuration))
      ensures reply.One? ==>
                && jobId in old(store.jobs) && OwnsLease(old(store.jobs)[jobId], owner, generation, now)
                && store.jobs == old(store.jobs)[jobId := reply.job]
      ensures !reply.One? ==> store.jobs == old(store.jobs)
    {
      reply := store.Perform(RenewLease(tenant, jobId, owner, generation, now, now + leaseDuration));
    }
  }

  /** A refused operation changes nothing. */
  lemma RejectedChangesNothing(jobs: Jobs, cmd: Command)
    requires WellKeyed(jobs) && Step(jobs, cmd).1.Rejected?
    ensures Step(jobs, cmd).0 == jobs
  {
    hide Apply, ValidJob, RecoverOne, FirstFailure, LeaseKeys, RecoveryKeys;
  }

  /** A job that a supervised lease at `now` could hand out: it waits, or its lease expired and may be recovered. */
  predicate Available(job: WorkerJob, tenant: string, kind: WorkerKind, now: Time) {
    || Waiting(job, tenant, kind)
    || (Expired(job, tenant, kind, now) && job.recoveryCount + 1 < job.maxRecoveryAttempts)
  }

  ghost predicate NoneAvailable(jobs: Jobs, tenant: string, kind: WorkerKind, now: Time) {
    forall id :: id in jobs ==> !Available(jobs[id], tenant, kind, now)
  }

  ghost predicate NoneWaiting(jobs: Jobs, tenant: string, kind: WorkerKind) {
    forall id :: id in jobs ==> !Waiting(jobs[id], tenant, kind)
  }

  lemma RecoveryOf(job: WorkerJob, tenant: string, kind: WorkerKind, now: Time)
    requires Sound(job) && Timely(job, now)
    ensures Expired(job, tenant, kind, now) ==> RecoverOne(job, now).Ok?
    ensures var after := if Expired(job, tenant, kind, now) then Recovered(job, now) else job;
            && !Expired(after, tenant, kind, now)
            && Sound(after) && Timely(after, now)
            && (Waiting(after, tenant, kind) <==> Available(job, tenant, kind, now))
            && after.leaseGeneration == job.leaseGeneration
  {
  }

  /** The store between the two halves of a supervised lease. */
  lemma AfterRecovery(jobs: Jobs, tenant: string, kind: WorkerKind, now: Time)
    requires GoodStore(jobs, now)
    ensures var (after, reply) := Step(jobs, RecoverExpired(tenant, kind, now));
            && !reply.Rejected? && after == AllRecovered(jobs, tenant, kind, now)
            && GoodStore(after, now)
            && forall id :: id in jobs ==>
                 && !Expired(after[id], tenant, kind, now)
                 && (Waiting(after[id], tenant, kind) <==> Available(jobs[id], tenant, kind, now))
                 && after[id].leaseGeneration == jobs[id].leaseGeneration
  {
    var cmd := RecoverExpired(tenant, kind, now);
    StepMoves(jobs, cmd);
    RecoveryFails(jobs, tenant, kind, now);
    forall id | id in jobs
      ensures Expired(jobs[id], tenant, kind, now) ==> RecoverOne(jobs[id], now).Ok?
      ensures var after := AllRecovered(jobs, tenant, kind, now)[id];
              && !Expired(after, tenant, kind, now) && Sound(after) && Timely(after, now)
              && (Waiting(after, tenant, kind) <==> Available(jobs[id], tenant, kind, now))
              && after.leaseGeneration == jobs[id].leaseGeneration
    {
      RecoveryOf(jobs[id], tenant, kind, now);
    }
    hide RecoverOne, Expired, Sound, Timely, Available, Waiting, Moved;
  }

  lemma RecoveryLeavesJob(jobs: Jobs, tenant: string, kind: WorkerKind, now: Time, id: string)
    requires GoodStore(jobs, now) && id in AllRecovered(jobs, tenant, kind, now)
    ensures var after := AllRecovered(jobs, tenant, kind, now);
            && id in jobs
            && (Waiting(after[id], tenant, kind) <==> Available(jobs[id], tenant, kind, now))
            && after[id].leaseGeneration == jobs[id].leaseGeneration
  {
    assert AllRecovered(jobs, tenant, kind, now).Keys == jobs.Keys;
    hide GoodStore, AllRecovered, Waiting, Available, Step;
    AfterRecovery(jobs, tenant, kind, now);
  }

  lemma RecoveryLeaves(jobs: Jobs, tenant: string, kind: WorkerKind, now: Time)
    requires GoodStore(jobs, now)
    ensures var (after, reply) := Step(jobs, RecoverExpired(tenant, kind, now));
            && !reply.Rejected? && after == AllRecovered(jobs, tenant, kind, now) && GoodStore(after, now)
            && (NoneWaiting(after, tenant, kind) <==> NoneAvailable(jobs, tenant, kind, now))
  {
    hide GoodStore, AllRecovered, Waiting, Available, Step;
    AfterRecovery(jobs, tenant, kind, now);
    forall id | id in AllRecovered(jobs, tenant, kind, now)
      ensures id in jobs
      ensures Waiting(AllRecovered(jobs, tenant, kind, now)[id], tenant, kind)
              <==> Available(jobs[id], tenant, kind, now)
    {
      RecoveryLeavesJob(jobs, tenant, kind, now, id);
    }
    assert AllRecovered(jobs, tenant, kind, now).Keys == jobs.Keys by { KeysKept(jobs, tenant, kind, now); }
  }

  lemma KeysKept(jobs: Jobs, tenant: string, kind: WorkerKind, now: Time)
    ensures AllRecovered(jobs, tenant, kind, now).Keys == jobs.Keys
  {
  }

  /** The job handed out is stored and leased to this owner, under the generation after `before`, until `until`. */
  predicate Handed(after: Jobs, job: WorkerJob, before: int, owner: string, now: Time, until: Time) {
    && job.jobId in after && after[job.jobId] == job
    && OwnsLease(job, owner, before + 1, now)
    && job.leaseExpiresAt == Some(until)
  }

  /** The answer to a lease request: nothing exactly when no job waits, else a waiting job leased as requested. */
  ghost predicate Serves(jobs: Jobs, cmd: Command, outcome: (Jobs, Reply))
    requires cmd.LeaseNext?
  {
    && !outcome.1.Rejected?
    && (outcome.1.Nothing? <==> NoneWaiting(jobs, cmd.tenant, cmd.kind))
    && (outcome.1.One? ==>
          var id := outcome.1.job.jobId;
          && id in jobs && Waiting(jobs[id], cmd.tenant, cmd.kind)
          && Handed(outcome.0, outcome.1.job, jobs[id].leaseGeneration, cmd.owner, cmd.at, cmd.expiresAt))
  }

  /** The answer to a supervised lease: nothing exactly when no job is available, else an available one leased until
      `until`. */
  ghost predicate ServesAvailable(jobs: Jobs, tenant: string, kind: WorkerKind, owner: string, now: Time, until: Time,
                                  outcome: (Jobs, Reply))
  {
    && !outcome.1.Rejected?
    && (outcome.1.Nothing? <==> NoneAvailable(jobs, tenant, kind, now))
    && (outcome.1.One? ==>
          var id := outcome.1.job.jobId;
          && id in jobs && Available(jobs[id], tenant, kind, now)
          && Handed(outcome.0, outcome.1.job, jobs[id].leaseGeneration, owner, now, until))
  }

  lemma ServesRecovered(jobs: Jobs, tenant: string, kind: WorkerKind, owner: string, now: Time, until: Time,
                        agingInterval: int, outcome: (Jobs, Reply))
    requires GoodStore(jobs, now)
    requires Serves(AllRecovered(jobs, tenant, kind, now), LeaseNext(tenant, kind, owner, now, until, agingInterval),
                    outcome)
    ensures ServesAvailable(jobs, tenant, kind, owner, now, until, outcome)
  {
    hide GoodStore, AllRecovered, Waiting, Available, Handed, NoneWaiting, NoneAvailable;
    RecoveryLeaves(jobs, tenant, kind, now);
    if outcome.1.One? { RecoveryLeavesJob(jobs, tenant, kind, now, outcome.1.job.jobId); }
  }

  /** A supervised lease never fails and never idles a worker needlessly: it answers with nothing exactly when no job
      of these workers is available, and otherwise leases an available job to the caller for the full duration. */
  lemma SupervisedLeaseServes(jobs: Jobs, tenant: string, kind: WorkerKind, owner: string, now: Time,
                              leaseDuration: int, agingInterval: int)
    requires GoodStore(jobs, now) && tenant != "" && owner != "" && leaseDuration > 0 && agingInterval > 0
    ensures ServesAvailable(jobs, tenant, kind, owner, now, now + leaseDuration,
                            SupervisedLease(jobs, tenant, kind, owner, now, leaseDuration, agingInterval))
  {
    hide *;
    var recovered := AllRecovered(jobs, tenant, kind, now);
    var cmd := LeaseNext(tenant, kind, owner, now, now + leaseDuration, agingInterval);
    RecoveryLeaves(jobs, tenant, kind, now);
    IsSane(jobs, cmd);
    LeaseAfterRecovery(jobs, tenant, kind, owner, now, leaseDuration, agingInterval);
    LeaseServes(recovered, cmd);
    ServesRecovered(jobs, tenant, kind, owner, now, now + leaseDuration, agingInterval, Step(recovered, cmd));
  }

  lemma IsSane(jobs: Jobs, cmd: Command)
    requires cmd.LeaseNext? && cmd.owner != "" && cmd.at < cmd.expiresAt && cmd.agingInterval > 0
    requires GoodStore(jobs, cmd.at)
    ensures SaneLease(cmd) && WellKeyed(jobs)
  {
  }

  lemma LeaseAfterRecovery(jobs: Jobs, tenant: string, kind: WorkerKind, owner: string, now: Time,
                           leaseDuration: int, agingInterval: int)
    requires WellKeyed(jobs) && tenant != "" && owner != ""
    requires !Step(jobs, RecoverExpired(tenant, kind, now)).1.Rejected?
    ensures var recovered := Step(jobs, RecoverExpired(tenant, kind, now)).0;
            && WellKeyed(recovered)
            && SupervisedLease(jobs, tenant, kind, owner, now, leaseDuration, agingInterval)
               == Step(recovered, LeaseNext(tenant, kind, owner, now, now + leaseDuration, agingInterval))
  {
    hide Step;
    StepMoves(jobs, RecoverExpired(tenant, kind, now));
    hide Moved;
  }

  lemma LeaseServes(jobs: Jobs, cmd: Command)
    requires SaneLease(cmd) && GoodStore(jobs, cmd.at)
    ensures Serves(jobs, cmd, Step(jobs, cmd))
  {
    var keys := LeaseKeys(jobs, cmd.tenant, cmd.kind, cmd.at, cmd.agingInterval);
    if keys != {} {
      LeaseHead(jobs, cmd);
      LeaseFailsExactly(cmd, jobs[Arrange(KeyLeq, keys)[0].id]);
    } else {
      QueueIs(keys);
    }
    assert forall id :: id in jobs && Waiting(jobs[id], cmd.tenant, cmd.kind) ==>
                          LeaseKey(jobs[id], cmd.at, cmd.agingInterval) in keys;
  }

  /** A heartbeat is accepted exactly from the holder of an unexpired lease whose expiry it moves strictly later;
      a heartbeat at the very reading that set the current expiry is refused. */
  lemma HeartbeatAccepted(jobs: Jobs, tenant: string, jobId: string, owner: string, generation: int,
                          now: Time, leaseDuration: int)
    requires GoodStore(jobs, now) && jobId in jobs && jobs[jobId].tenantId == tenant && leaseDuration > 0
    ensures var (after, reply) := Step(jobs, RenewLease(tenant, jobId, owner, generation, now, now + leaseDuration));
            && (reply.One? <==> OwnsLease(jobs[jobId], owner, generation, now)
                                && jobs[jobId].leaseExpiresAt.value < now + leaseDuration)
            && (reply.One? ==> after == jobs[jobId := jobs[jobId].(leaseExpiresAt := Some(now + leaseDuration))])
            && (OwnsLease(jobs[jobId], owner, generation, now)
                && now + leaseDuration <= jobs[jobId].leaseExpiresAt.value
                <==> reply == Rejected(ValueError))
  {
  }

  // Supervised leases in runs.

  /** On every store a run can reach, a supervised lease that no other operation interrupts serves the worker. */
  lemma SupervisedLeaseInRuns(run: seq<Command>, i: nat, tenant: string, kind: WorkerKind, owner: string, now: Time,
                              leaseDuration: int, agingInterval: int)
    requires i <= |run| && ReadsAt(run, i, now)
    requires tenant != "" && owner != "" && leaseDuration > 0 && agingInterval > 0
    ensures ServesAvailable(At(run, i), tenant, kind, owner, now, now + leaseDuration,
                            SupervisedLease(At(run, i), tenant, kind, owner, now, leaseDuration, agingInterval))
  {
    hide *;
    GoodAt(run, i, now);
    SupervisedLeaseServes(At(run, i), tenant, kind, owner, now, leaseDuration, agingInterval);
  }

  /** The two halves of a supervised lease, at operations `i` and `k` of a run. */
  ghost predicate Halves(run: seq<Command>, i: nat, k: nat, tenant: string, kind: WorkerKind, owner: string, now: Time,
                         leaseDuration: int, agingInterval: int)
  {
    && i < k < |run|
    && run[i] == RecoverExpired(tenant, kind, now)
    && run[k] == LeaseNext(tenant, kind, owner, now, now + leaseDuration, agingInterval)
    && owner != "" && leaseDuration > 0 && agingInterval > 0
  }

  /** The job has not changed between operations `i` and `k`. */
  ghost predicate Untouched(run: seq<Command>, i: nat, k: nat, id: string)
    requires i <= k <= |run|
  {
    id in At(run, i) && id in At(run, k) && At(run, k)[id] == At(run, i)[id]
  }

  /** Between the halves the store's lock is free, so any other operations may come between them, at any reading of
      their own. Recovery succeeds all the same. The lease is then refused exactly if the job at the head of the queue
      was meanwhile queued at a later reading, and it does not answer with nothing as long as one job that was
      available at the start is untouched since the recovery. */
  lemma InterruptedLease(run: seq<Command>, i: nat, k: nat, tenant: string, kind: WorkerKind, owner: string, now: Time,
                         leaseDuration: int, agingInterval: int)
    requires Halves(run, i, k, tenant, kind, owner, now, leaseDuration, agingInterval) && ReadsAt(run, i, now)
    ensures !ReplyOf(run, i).Rejected?
    ensures var queue := Arrange(KeyLeq, LeaseKeys(At(run, k), tenant, kind, now, agingInterval));
            ReplyOf(run, k).Rejected? <==> queue != [] && now < queue[0].queuedAt
    ensures forall id :: id in At(run, i) && Available(At(run, i)[id], tenant, kind, now)
                         && Untouched(run, i + 1, k, id)
                         ==> !ReplyOf(run, k).Nothing?
  {
    GoodAt(run, i, now);
    Unfold(run, i);
    hide Step, At, Arrange, LeaseKeys, Available, Waiting, GoodStore, ReadsAt, AllRecovered;
    AfterRecovery(At(run, i), tenant, kind, now);
    LeaseRefusedExactly(run, k);
    forall id | id in At(run, i) && Available(At(run, i)[id], tenant, kind, now) && Untouched(run, i + 1, k, id)
      ensures !ReplyOf(run, k).Nothing?
    {
      assert Waiting(At(run, k)[id], tenant, kind);
      WaitingIsQueued(At(run, k), id, tenant, kind, now, agingInterval);
    }
  }

  lemma WaitingIsQueued(jobs: Jobs, id: string, tenant: string, kind: WorkerKind, now: Time, agingInterval: int)
    requires id in jobs && Waiting(jobs[id], tenant, kind) && agingInterval > 0
    ensures Arrange(KeyLeq, LeaseKeys(jobs, tenant, kind, now, agingInterval)) != []
  {
    hide Waiting, LeaseKey, Arrange;
    var keys := LeaseKeys(jobs, tenant, kind, now, agingInterval);
    assert LeaseKey(jobs[id], now, agingInterval) in keys;
    QueueIs(keys);
  }

  /** Such an interruption exists: a job queued at a later reading between the two halves makes the lease fail. */
  lemma QueuedBetweenBlocks(job: WorkerJob, owner: string, now: Time, leaseDuration: int, agingInterval: int)
    requires Fresh(job) && now < job.queuedAt && owner != "" && leaseDuration > 0 && agingInterval > 0
    ensures var tenant, kind := job.tenantId, job.workerKind;
            var run := [RecoverExpired(tenant, kind, now), Add(job),
                        LeaseNext(tenant, kind, owner, now, now + leaseDuration, agingInterval)];
            && Halves(run, 0, 2, tenant, kind, owner, now, leaseDuration, agingInterval)
            && ReplyOf(run, 2).Rejected?
  {
    var tenant, kind := job.tenantId, job.workerKind;
    var run := [RecoverExpired(tenant, kind, now), Add(job),
                LeaseNext(tenant, kind, owner, now, now + leaseDuration, agingInterval)];
    Unfold(run, 0);
    Unfold(run, 1);
    assert At(run, 0) == map[];
    RecoveringNothing(tenant, kind, now);
    hide At, StepRecover, StepLease, Apply;
    assert At(run, 1 + 1) == map[job.jobId := job];
    LeaseAlone(job, run[2]);
    FutureLeaseFails(run[2], job);
  }

  lemma RecoveringNothing(tenant: string, kind: WorkerKind, at: Time)
    ensures StepRecover(map[], tenant, kind, at).0 == map[]
  {
  }
}
