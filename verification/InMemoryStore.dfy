/** The store object that performs the operations in place, and the supervisor that drives it by a clock. */
module InMemoryStore {
  import opened Prelude
  import opened Ordering
  import opened Agents
  import opened JobStore
  import opened JobInvariants

  lemma RecoveryQueueInJobs(jobs: Jobs, queue: seq<Key>, tenant: string, kind: WorkerKind, at: Time)
    requires queue == Arrange(KeyLeq, RecoveryKeys(jobs, tenant, kind, at)) && WellKeyed(jobs)
    ensures forall key :: key in queue ==> key.id in jobs
  {
    QueueInJobs(jobs, queue, RecoveryKeys(jobs, tenant, kind, at));
  }

  lemma LeaseQueueInJobs(jobs: Jobs, queue: seq<Key>, cmd: Command)
    requires cmd.LeaseNext? && cmd.agingInterval > 0 && WellKeyed(jobs)
    requires queue == Arrange(KeyLeq, LeaseKeys(jobs, cmd.tenant, cmd.kind, cmd.at, cmd.agingInterval))
    ensures forall key :: key in queue ==> key.id in jobs
  {
    QueueInJobs(jobs, queue, LeaseKeys(jobs, cmd.tenant, cmd.kind, cmd.at, cmd.agingInterval));
  }

  /** What is written over a job names the same job, and an owned operation was the holder's. */
  lemma AppliedIsOwned(cmd: Command, job: WorkerJob)
    requires !cmd.Add? && Apply(cmd, job).Ok?
    ensures SameCommand(job, Apply(cmd, job).value)
    ensures Fenced(cmd) ==> OwnsLease(job, cmd.owner, cmd.generation, cmd.at)
  {
    ApplyResult(cmd, job);
  }

  class InMemoryJobStore {
    var jobs: Jobs
    var added: nat

    ghost predicate Valid()
      reads this
    {
      WellKeyed(jobs) && added == |jobs|
    }

    constructor ()
      ensures Valid() && jobs == map[]
    {
      jobs := map[];
      added := 0;
    }

    method Add(job: WorkerJob) returns (reply: Reply)
      requires Valid()
      modifies this
      ensures Valid()
      ensures (jobs, reply) == Step(old(jobs), Command.Add(job))
      ensures added == old(added) + if reply.One? then 1 else 0
      ensures reply.One? <==> Fresh(job) && job.jobId !in old(jobs)
      ensures jobs == if reply.One? then old(jobs)[job.jobId := job] else old(jobs)
    {
      if !ValidJob(job) { return Rejected(ValidationError); }
      if !job.phase.Queued? || job.dispatchAttempt != 0 || job.leaseGeneration != 0 || job.recoveryCount != 0 {
        return Rejected(ValueError);
      }
      if job.jobId in jobs { return Rejected(AlreadyExists); }
      jobs := jobs[job.jobId := job];
      added := added + 1;
      reply := One(job);
    }

    method Get(tenant: string, jobId: string) returns (job: Option<WorkerJob>)
      requires Valid()
      ensures job.Some? <==> jobId in jobs && jobs[jobId].tenantId == tenant
      ensures job.Some? ==> job.value == jobs[jobId] && job.value.jobId == jobId
    {
      job := if jobId in jobs && jobs[jobId].tenantId == tenant then Some(jobs[jobId]) else None;
    }

    /** The sort keys of the selected jobs, in the order the jobs happen to be visited. */
    method KeysOf(select: WorkerJob -> bool, key: WorkerJob -> Key) returns (keys: seq<Key>)
      requires Valid() && forall job :: key(job).id == job.jobId
      ensures multiset(keys) == multiset(set id | id in jobs && select(jobs[id]) :: key(jobs[id]))
    {
      keys := [];
      var rest := jobs.Keys;
      ghost var seen: set<Key> := {};
      while rest != {}
        invariant rest <= jobs.Keys
        invariant multiset(keys) == multiset(seen)
        invariant forall k :: k in seen ==> k.id in jobs && k.id !in rest
        invariant forall id :: id in jobs && id !in rest ==> (select(jobs[id]) <==> key(jobs[id]) in seen)
        invariant forall k :: k in seen ==> k == key(jobs[k.id])
        decreases |rest|
      {
        var id :| id in rest;
        rest := rest - {id};
        if select(jobs[id]) {
          keys := keys + [key(jobs[id])];
          seen := seen + {key(jobs[id])};
        }
      }
      assert seen == set id | id in jobs && select(jobs[id]) :: key(jobs[id]);
    }

    /** The keys of the expired jobs, in recovery order. */
    method RecoveryQueue(tenant: string, kind: WorkerKind, at: Time) returns (queue: seq<Key>)
      requires Valid()
      ensures queue == Arrange(KeyLeq, RecoveryKeys(jobs, tenant, kind, at))
    {
      ghost var wanted := RecoveryKeys(jobs, tenant, kind, at);
      var keys := KeysOf(job => Expired(job, tenant, kind, at), RecoveryKey);
      hide Expired, KeyLeq;
      assert multiset(keys) == multiset(wanted);
      KeyOrder();
      SortIsArrange(KeyLeq, keys, wanted);
      queue := SortBy(KeyLeq, keys);
    }

    /** The keys of the waiting jobs, in the order in which they would be leased at this instant. */
    method LeaseQueue(tenant: string, kind: WorkerKind, at: Time, agingInterval: int) returns (queue: seq<Key>)
      requires Valid() && agingInterval > 0
      ensures queue == Arrange(KeyLeq, LeaseKeys(jobs, tenant, kind, at, agingInterval))
    {
      ghost var wanted := LeaseKeys(jobs, tenant, kind, at, agingInterval);
      var keys := KeysOf(job => Waiting(job, tenant, kind), job => LeaseKey(job, at, agingInterval));
      hide Waiting, EffectiveLevel, KeyLeq;
      assert multiset(keys) == multiset(wanted);
      KeyOrder();
      SortIsArrange(KeyLeq, keys, wanted);
      queue := SortBy(KeyLeq, keys);
    }

    /** The recovered snapshots in queue order, or the first failure. */
    method RecoverEach(queue: seq<Key>, at: Time) returns (outcome: Result<seq<WorkerJob>, JobError>)
      requires forall key :: key in queue ==> key.id in jobs
      ensures outcome.Ok? ==> FirstFailure(jobs, queue, at).None? && outcome.value == Recoveries(jobs, queue, at)
      ensures outcome.Err? ==> FirstFailure(jobs, queue, at) == Some(outcome.error)
    {
      hide RecoverOne;
      var recovered: seq<WorkerJob> := [];
      for i := 0 to |queue|
        invariant recovered == Recoveries(jobs, queue[..i], at)
        invariant FirstFailure(jobs, queue, at) == FirstFailure(jobs, queue[i..], at)
      {
        assert queue[i] in queue && queue[i..][0] == queue[i] && queue[i..][1..] == queue[i + 1..];
        var one := RecoverOne(jobs[queue[i].id], at);
        if one.Err? { return Err(one.error); }
        recovered := recovered + [one.value];
        assert queue[..i + 1] == queue[..i] + [queue[i]];
      }
      assert queue[..|queue|] == queue;
      outcome := Ok(recovered);
    }

    method StoreEach(snapshots: seq<WorkerJob>)
      modifies this`jobs
      ensures jobs == WriteAll(old(jobs), snapshots)
    {
      for i := 0 to |snapshots|
        invariant jobs == WriteAll(old(jobs), snapshots[..i])
      {
        assert snapshots[..i + 1][..i] == snapshots[..i];
        jobs := jobs[snapshots[i].jobId := snapshots[i]];
      }
      assert snapshots[..|snapshots|] == snapshots;
    }

    /** Every recovered snapshot is computed before the first one is stored. */
    method RecoverExpired(tenant: string, kind: WorkerKind, at: Time) returns (reply: Reply)
      requires Valid()
      modifies this
      ensures Valid() && added == old(added)
      ensures (jobs, reply) == Step(old(jobs), Command.RecoverExpired(tenant, kind, at))
    {
      hide RecoverOne, RecoveryKeys, Arrange, AllRecovered, FirstFailure, Recoveries;
      var queue := RecoveryQueue(tenant, kind, at);
      RecoveryQueueInJobs(jobs, queue, tenant, kind, at);
      RecoverMoves(jobs, tenant, kind, at);
      WritesAllRecovered(jobs, tenant, kind, at, queue);
      var outcome := RecoverEach(queue, at);
      if outcome.Err? { return Rejected(outcome.error); }
      StoreEach(outcome.value);
      reply := Many(outcome.value);
    }

    method LeaseNext(tenant: string, kind: WorkerKind, owner: string, at: Time, expiresAt: Time, agingInterval: int)
      returns (reply: Reply)
      requires Valid()
      modifies this
      ensures Valid() && added == old(added)
      ensures (jobs, reply) == Step(old(jobs), Command.LeaseNext(tenant, kind, owner, at, expiresAt, agingInterval))
    {
      hide Apply, LeaseKeys, Arrange;
      var cmd := Command.LeaseNext(tenant, kind, owner, at, expiresAt, agingInterval);
      if owner == "" || expiresAt <= at || agingInterval <= 0 { return Rejected(ValueError); }
      var queue := LeaseQueue(tenant, kind, at, agingInterval);
      LeaseQueueInJobs(jobs, queue, cmd);
      LeaseMoves(jobs, cmd);
      if queue == [] { return Nothing; }
      assert queue[0] in queue;
      reply := Commit(Apply(cmd, jobs[queue[0].id]));
    }

    method Commit(outcome: Result<WorkerJob, JobError>) returns (reply: Reply)
      modifies this`jobs
      ensures (jobs, reply) == Write(old(jobs), outcome)
    {
      if outcome.Err? { return Rejected(outcome.error); }
      jobs := jobs[outcome.value.jobId := outcome.value];
      reply := One(outcome.value);
    }

    /** The operations on a named job: resume, start, renew, pause, succeed, fail and the two cancellations. */
    method Perform(cmd: Command) returns (reply: Reply)
      requires Valid() && Targeted(cmd)
      modifies this
      ensures Valid() && added == old(added)
      ensures (jobs, reply) == Step(old(jobs), cmd)
      ensures reply.One? || reply.Rejected?
      ensures reply.Rejected? ==> jobs == old(jobs)
      ensures reply.One? ==>
                && cmd.jobId in old(jobs) && old(jobs)[cmd.jobId].tenantId == cmd.tenant
                && SameCommand(old(jobs)[cmd.jobId], reply.job)
                && jobs == old(jobs)[cmd.jobId := reply.job]
      ensures Fenced(cmd) && reply.One? ==> OwnsLease(old(jobs)[cmd.jobId], cmd.owner, cmd.generation, cmd.at)
    {
      if cmd.jobId !in jobs || jobs[cmd.jobId].tenantId != cmd.tenant { return Rejected(NotFound); }
      WriteMoves(jobs, cmd, cmd.jobId);
      if Apply(cmd, jobs[cmd.jobId]).Ok? { AppliedIsOwned(cmd, jobs[cmd.jobId]); }
      hide Apply;
      reply := Commit(Apply(cmd, jobs[cmd.jobId]));
    }
  }
}
