/** The jobs stored at one worker: commitment, activation, suspension and termination. */
module JobDatabases {
  import opened Basics

  datatype JobState = INACTIVE | ACTIVE | SUSPENDED | PAST

  datatype Request = Request(jobId: int, requestedNodeIndex: int, requestingNodeRank: int, revision: int,
                             balancingEpoch: int, numHops: int)

  datatype RequestMode = TARGETED_REJOIN | NORMAL | IGNORE_FAIL

  datatype AdoptionResult = ADOPT_FROM_IDLE | ADOPT_REPLACE_CURRENT(removedJob: int) | REJECT | DEFER

  /** A job with its place in the job tree; the index is -1 before the first commitment. */
  datatype Job = Job(state: JobState, commitment: Option<Request>, index: int, hasLeftChild: bool, hasRightChild: bool,
                     volume: int, numRevisions: nat, desiredRevision: int, epochOfLastCommitment: int,
                     epochOfLastRequests: int)
  {
    predicate IsRoot() { index == 0 }

    predicate IsLeaf() { !hasLeftChild && !hasRightChild }

    predicate HasDescription() { numRevisions > 0 }

    /** The highest revision present, or -1. */
    function Revision(): int { numRevisions - 1 }

    predicate Busy() { state == ACTIVE || commitment.Some? }
  }

  const NewJob := Job(INACTIVE, None, -1, false, false, 1, 0, 0, -1, -1)

  // ----- transitions of a job; what they require is asserted in the job -----------------------

  function Committed(job: Job, req: Request): Job
    requires job.state != ACTIVE && job.state != PAST
  {
    job.(commitment := Some(req), index := req.requestedNodeIndex, epochOfLastCommitment := req.balancingEpoch)
  }

  function Uncommitted(job: Job): Job
    requires job.state != ACTIVE
  {
    job.(commitment := None)
  }

  function Started(job: Job): Job
    requires job.state == INACTIVE
  {
    job.(state := ACTIVE, volume := Max(1, job.volume))
  }

  function Suspended(job: Job): Job
    requires job.state == ACTIVE
  {
    job.(state := SUSPENDED, hasLeftChild := false, hasRightChild := false)
  }

  function Resumed(job: Job): Job
    requires job.state == SUSPENDED
  {
    job.(state := ACTIVE, volume := Max(1, job.volume))
  }

  // ----- the invariant --------------------------------------------------------------------------

  /** At most one job is active or committed, and no job is both. */
  ghost predicate AtMostOneBusy(jobs: map<int, Job>) {
    && (forall a, b :: a in jobs && b in jobs && jobs[a].Busy() && jobs[b].Busy() ==> a == b)
    && (forall id :: id in jobs ==> !(jobs[id].state == ACTIVE && jobs[id].commitment.Some?))
  }

  /** The current job is the active one. */
  ghost predicate CurrentIsActive(jobs: map<int, Job>, current: Option<int>) {
    && (current.Some? ==> current.value in jobs && jobs[current.value].state == ACTIVE)
    && (forall id :: id in jobs && jobs[id].state == ACTIVE ==> current == Some(id))
  }

  ghost predicate SomeCommitment(jobs: map<int, Job>) {
    exists id :: id in jobs && jobs[id].commitment.Some?
  }

  predicate DormantRootIn(jobs: map<int, Job>) {
    exists id :: id in jobs && jobs[id].IsRoot() && jobs[id].state == SUSPENDED
  }

  ghost predicate Inv(jobs: map<int, Job>, load: int, current: Option<int>, hasCommitment: bool) {
    && AtMostOneBusy(jobs) && CurrentIsActive(jobs, current)
    && (load == 1 || load == 0) && (load == 1 <==> current.Some?)
    && (hasCommitment <==> SomeCommitment(jobs))
    && (forall id :: id in jobs ==> jobs[id].state != PAST && RequestOf(jobs[id], id))
  }

  /** A commitment is made for the job that stores it. */
  ghost predicate RequestOf(job: Job, id: int) { job.commitment.Some? ==> job.commitment.value.jobId == id }

  /** Changing a job that is the only busy one, or when none is, to a job that is busy at most in one way. */
  lemma {:induction false} ChangeJob(jobs: map<int, Job>, load: int, current: Option<int>, flag: bool, id: int,
      job: Job)
    requires Inv(jobs, load, current, flag)
    requires load == 1 ==> current == Some(id)
    requires flag ==> id in jobs && jobs[id].commitment.Some?
    requires job.state != PAST && !(job.state == ACTIVE && job.commitment.Some?) && RequestOf(job, id)
    ensures Inv(jobs[id := job], if job.state == ACTIVE then 1 else 0, if job.state == ACTIVE then Some(id) else None,
        job.commitment.Some?)
  {
    NoOtherBusy(jobs, load, current, flag, id);
    var jobs' := jobs[id := job];
    assert id in jobs' && jobs'[id] == job;
    assert forall k :: k in jobs' && k != id ==> !jobs'[k].Busy();
  }

  lemma {:induction false} NoOtherBusy(jobs: map<int, Job>, load: int, current: Option<int>, flag: bool, id: int)
    requires Inv(jobs, load, current, flag)
    requires load == 1 ==> current == Some(id)
    requires flag ==> id in jobs && jobs[id].commitment.Some?
    ensures forall k :: k in jobs && k != id ==> !jobs[k].Busy()
  {
    forall k | k in jobs && k != id ensures !jobs[k].Busy() {
      assert jobs[k].commitment.Some? ==> SomeCommitment(jobs);
      assert flag ==> jobs[id].Busy();
    }
  }

  /** Changes that touch neither the state nor the commitment of a job do not matter. */
  lemma {:induction false} ChangeDetails(jobs: map<int, Job>, load: int, current: Option<int>, flag: bool, id: int,
      job: Job)
    requires Inv(jobs, load, current, flag) && id in jobs
    requires job.state == jobs[id].state && job.commitment == jobs[id].commitment
    ensures Inv(jobs[id := job], load, current, flag)
  {
    var jobs' := jobs[id := job];
    assert forall k :: k in jobs' <==> k in jobs;
    assert forall k :: k in jobs ==> jobs'[k].state == jobs[k].state && jobs'[k].commitment == jobs[k].commitment;
    if flag {
      var k :| k in jobs && jobs[k].commitment.Some?;
      assert k in jobs' && jobs'[k].commitment.Some?;
    }
  }

  /** Forgetting a job that is not busy. */
  lemma {:induction false} DropJob(jobs: map<int, Job>, load: int, current: Option<int>, flag: bool, id: int)
    requires Inv(jobs, load, current, flag) && id in jobs && !jobs[id].Busy()
    ensures Inv(jobs - {id}, load, current, flag)
  {
    var jobs' := jobs - {id};
    if flag {
      var k :| k in jobs && jobs[k].commitment.Some?;
      assert k in jobs' && jobs'[k].commitment.Some?;
    }
  }

  // ----- the database ----------------------------------------------------------------------------

  class JobDatabase {
    const reactivationScheduling: bool
    const commSize: nat
    var jobs: map<int, Job>
    var load: int
    var currentJob: Option<int>
    var hasCommitment: bool

    /**
     In every reachable state at most one job is active or committed, the load is 1 exactly when the current
     job is the active one, and the commitment flag is set exactly when some stored job is committed.
     */
    ghost predicate Valid()
      reads this
    {
      Inv(jobs, load, currentJob, hasCommitment)
    }

    constructor (reactivationScheduling: bool, commSize: nat)
      ensures Valid() && jobs == map[] && !hasCommitment && load == 0
      ensures this.reactivationScheduling == reactivationScheduling && this.commSize == commSize
    {
      this.reactivationScheduling, this.commSize := reactivationScheduling, commSize;
      jobs, load, currentJob, hasCommitment := map[], 0, None, false;
    }

    predicate Has(id: int)
      reads this
    {
      id in jobs
    }

    predicate JobCommitted(id: int)
      reads this
    {
      id in jobs && jobs[id].commitment.Some?
    }

    predicate HasActiveJob()
      reads this
    {
      load == 1
    }

    predicate IsBusyOrCommitted()
      reads this
    {
      HasActiveJob() || hasCommitment
    }

    predicate HasDormantRoot()
      reads this
    {
      DormantRootIn(jobs)
    }

    predicate HasDormantJob(id: int)
      reads this
    {
      id in jobs && jobs[id].state == SUSPENDED
    }

    method SetLoad(newLoad: int, id: int)
      requires newLoad + load == 1 && (load == 1 || load == 0) && id in jobs
      requires newLoad == 1 <==> currentJob == None
      modifies `load, `currentJob
      ensures load == newLoad && currentJob == if newLoad == 1 then Some(id) else None
    {
      load := newLoad;
      if newLoad == 1 { currentJob := Some(id); }
      if newLoad == 0 { currentJob := None; }
    }

    method CreateJob(id: int)
      requires Valid() && id !in jobs && !IsBusyOrCommitted()
      modifies `jobs
      ensures Valid() && jobs == old(jobs)[id := NewJob]
    {
      ChangeJob(jobs, load, currentJob, hasCommitment, id, NewJob);
      jobs := jobs[id := NewJob];
    }

    method Commit(req: Request)
      requires Valid() && !IsBusyOrCommitted()
      modifies `jobs, `hasCommitment
      ensures Valid()
      ensures req.jobId !in old(jobs) ==> jobs == old(jobs) && !hasCommitment
      ensures req.jobId in old(jobs) ==>
                && hasCommitment && jobs == old(jobs)[req.jobId := Committed(old(jobs)[req.jobId], req)]
                && jobs[req.jobId] == old(jobs)[req.jobId].(commitment := Some(req), index := req.requestedNodeIndex,
                     epochOfLastCommitment := req.balancingEpoch)
    {
      if req.jobId in jobs {
        ChangeJob(jobs, load, currentJob, hasCommitment, req.jobId, Committed(jobs[req.jobId], req));
        jobs := jobs[req.jobId := Committed(jobs[req.jobId], req)];
        hasCommitment := true;
      }
    }

    /**
     Gives up a commitment. The flag is cleared even if the stored job has none, which would be wrong exactly if
     another job has one.
     */
    method Uncommit(id: int)
      requires Valid() && (id in jobs ==> jobs[id].state != ACTIVE)
      modifies `jobs, `hasCommitment
      ensures id !in old(jobs) ==> jobs == old(jobs) && hasCommitment == old(hasCommitment)
      ensures id in old(jobs) ==> !hasCommitment && jobs == old(jobs)[id := old(jobs)[id].(commitment := None)]
      ensures Valid() <==> (id in old(jobs) && !old(JobCommitted(id)) ==> !old(hasCommitment))
    {
      if id !in jobs { return; }
      if JobCommitted(id) {
        IdleWhileCommitted(id);
        ChangeJob(jobs, load, currentJob, hasCommitment, id, Uncommitted(jobs[id]));
      } else {
        assert jobs[id := Uncommitted(jobs[id])] == jobs;
      }
      jobs := jobs[id := Uncommitted(jobs[id])];
      hasCommitment := false;
    }

    lemma {:induction false} IdleWhileCommitted(id: int)
      requires Valid() && JobCommitted(id)
      ensures load == 0 && hasCommitment && jobs[id].state != ACTIVE && jobs[id].commitment.value.jobId == id
    {
      assert jobs[id].Busy() && SomeCommitment(jobs);
      assert forall k :: k in jobs && jobs[k].Busy() ==> k == id;
      assert forall k :: k in jobs ==> jobs[k].state != ACTIVE;
    }

    /** Starts or resumes a job; the worker must be idle. */
    method Execute(id: int)
      requires Valid() && (id in jobs ==> !IsBusyOrCommitted())
      modifies `jobs, `load, `currentJob
      ensures Valid()
      ensures id !in old(jobs) ==> jobs == old(jobs) && load == old(load)
      ensures id in old(jobs) ==>
                load == 1 && currentJob == Some(id)
                && jobs == old(jobs)[id := old(jobs)[id].(state := ACTIVE, volume := Max(1, old(jobs)[id].volume))]
    {
      if id !in jobs { return; }
      var job := jobs[id];
      assert job.state != ACTIVE && job.commitment == None by { NoOtherBusyAtAll(id); }
      ChangeJob(jobs, load, currentJob, hasCommitment, id, job.(state := ACTIVE, volume := Max(1, job.volume)));
      SetLoad(1, id);
      if job.state == INACTIVE { jobs := jobs[id := Started(job)]; } else { jobs := jobs[id := Resumed(job)]; }
    }

    lemma {:induction false} NoOtherBusyAtAll(id: int)
      requires Valid() && !IsBusyOrCommitted() && id in jobs
      ensures !jobs[id].Busy() && currentJob == None
    {
      assert jobs[id].commitment.Some? ==> SomeCommitment(jobs);
    }

    /** Resumes a suspended job in its new place of the job tree. */
    method Reactivate(req: Request)
      requires Valid() && !IsBusyOrCommitted() && HasDormantJob(req.jobId)
      modifies `jobs, `load, `currentJob
      ensures Valid() && load == 1 && currentJob == Some(req.jobId)
      ensures var job := old(jobs)[req.jobId];
              jobs == old(jobs)[req.jobId := job.(index := req.requestedNodeIndex, state := ACTIVE,
                  volume := Max(1, job.volume))]
    {
      var id := req.jobId;
      NoOtherBusyAtAll(id);
      var job := jobs[id].(index := req.requestedNodeIndex);
      ChangeJob(jobs, load, currentJob, hasCommitment, id, Resumed(job));
      SetLoad(1, id);
      assert !JobCommitted(id);
      jobs := jobs[id := Resumed(job)];
    }

    method Suspend(id: int)
      requires Valid() && id in jobs && jobs[id].state == ACTIVE
      modifies `jobs, `load, `currentJob
      ensures Valid() && load == 0 && currentJob == None && jobs == old(jobs)[id := Suspended(old(jobs)[id])]
      ensures jobs[id] == old(jobs)[id].(state := SUSPENDED, hasLeftChild := false, hasRightChild := false)
    {
      ActiveIsAlone(id);
      ChangeJob(jobs, load, currentJob, hasCommitment, id, Suspended(jobs[id]));
      jobs := jobs[id := Suspended(jobs[id])];
      SetLoad(0, id);
    }

    lemma {:induction false} ActiveIsAlone(id: int)
      requires Valid() && id in jobs && jobs[id].state == ACTIVE
      ensures load == 1 && currentJob == Some(id) && !hasCommitment
    {
      assert jobs[id].Busy();
      if hasCommitment {
        var k :| k in jobs && jobs[k].commitment.Some?;
        assert jobs[k].Busy();
      }
    }

    /** Ends a job in whatever state it is and forgets it. */
    method Terminate(id: int)
      requires Valid() && id in jobs
      modifies `jobs, `load, `currentJob, `hasCommitment
      ensures Valid() && jobs == old(jobs) - {id}
      ensures load == if old(currentJob) == Some(id) then 0 else old(load)
      ensures hasCommitment == (old(hasCommitment) && !old(JobCommitted(id)))
    {
      ghost var before := jobs;
      var job := jobs[id];
      TerminatedRest(id);
      if HasActiveJob() && currentJob.value == id { SetLoad(0, id); }
      jobs := jobs[id := job.(state := PAST, hasLeftChild := false, hasRightChild := false)];
      if jobs[id].commitment.Some? {
        jobs := jobs[id := Uncommitted(jobs[id])];
        hasCommitment := false;
      }
      assert jobs - {id} == before - {id};
      jobs := jobs - {id};
    }

    lemma {:induction false} TerminatedRest(id: int)
      requires Valid() && id in jobs
      ensures var active := currentJob == Some(id);
              Inv(jobs - {id}, if active then 0 else load, if active then None else currentJob,
                  hasCommitment && !JobCommitted(id))
    {
      var idle := jobs[id].(state := INACTIVE, commitment := None);
      if jobs[id].Busy() {
        if jobs[id].state == ACTIVE { ActiveIsAlone(id); } else { IdleWhileCommitted(id); }
        ChangeJob(jobs, load, currentJob, hasCommitment, id, idle);
        DropJob(jobs[id := idle], 0, None, false, id);
        assert jobs[id := idle] - {id} == jobs - {id};
      } else {
        DropJob(jobs, load, currentJob, hasCommitment, id);
      }
    }

    method Forget(id: int)
      requires Valid() && id in jobs && !jobs[id].Busy()
      modifies `jobs
      ensures Valid() && jobs == old(jobs) - {id}
    {
      DropJob(jobs, load, currentJob, hasCommitment, id);
      jobs := jobs - {id};
    }

    /**
     Forgets inactive jobs of ten seconds or more, and the suspended non-root jobs without schedulers that exceed
     the job cache, the longest active ones first. A committed job is never forgotten.
     */
    method ForgetOldJobs(times: Times, jobCacheSize: nat) returns (evicted: set<int>)
      requires Valid()
      modifies `jobs
      ensures Valid() && jobs == old(jobs) - (Aged(old(jobs), times) + evicted)
      ensures Evicts(Cached(old(jobs), times, jobCacheSize), times, jobCacheSize, evicted)
      ensures forall id :: id in old(jobs) ==>
                var job := old(jobs)[id];
                && (id in jobs ==> jobs[id] == job)
                && (id !in jobs <==>
                      || id in evicted
                      || (job.commitment == None && job.state == INACTIVE && times.sinceArrival(id) >= 10.0))
                && (id in Cached(old(jobs), times, jobCacheSize) <==>
                      && job.commitment == None && job.state == SUSPENDED && job.index != 0
                      && times.numSchedulers(id) == 0 && jobCacheSize > 0)
    {
      evicted := ChooseEvicted(Cached(jobs, times, jobCacheSize), times, jobCacheSize);
      hide Inv;
      ForgetAll(Aged(jobs, times) + evicted);
    }

    method ForgetAll(ids: set<int>)
      requires Valid() && forall id :: id in ids ==> id in jobs && !jobs[id].Busy()
      modifies `jobs
      ensures Valid() && jobs == old(jobs) - ids
    {
      hide Inv;
      var pending := ids;
      while pending != {}
        invariant Valid() && pending <= ids && jobs == old(jobs) - (ids - pending)
        decreases |pending|
      {
        ghost var some := SomeElement(pending);
        var id :| id in pending;
        Forget(id);
        pending := pending - {id};
      }
    }

    /**
     Decides on a request. A worker with a commitment, or with the dormant root of another job, rejects. An idle
     worker adopts, but a targeted request only if it has the suspended job. A busy one may drop a non-root
     leaf for the root of a job that is not active here.
     */
    method TryAdopt(req: Request, mode: RequestMode, schedulerActive: bool) returns (result: AdoptionResult)
      requires Valid()
      modifies `jobs, `load, `currentJob
      ensures Valid() && hasCommitment == old(hasCommitment)
      ensures !result.ADOPT_REPLACE_CURRENT? ==> jobs == old(jobs) && load == old(load) && currentJob == old(currentJob)
      ensures result == ADOPT_FROM_IDLE <==>
                old(Admissible(req, schedulerActive)) && !old(HasActiveJob())
                  && (mode == TARGETED_REJOIN ==> old(HasDormantJob(req.jobId)))
      ensures result.ADOPT_REPLACE_CURRENT? <==>
                old(Admissible(req, schedulerActive)) && old(HasActiveJob()) && old(MayReplace(req))
      ensures result.ADOPT_REPLACE_CURRENT? ==>
                && old(currentJob) == Some(result.removedJob) && load == 0
                && jobs == old(jobs)[result.removedJob := Suspended(old(jobs)[result.removedJob])]
                && jobs[result.removedJob] == old(jobs)[result.removedJob].(state := SUSPENDED, hasLeftChild := false,
                     hasRightChild := false)
      ensures result == DEFER <==>
                && old(Admissible(req, schedulerActive)) && old(HasActiveJob()) && !old(MayReplace(req))
                && req.requestedNodeIndex == 0 && !reactivationScheduling
                && req.numHops > 0 && req.numHops % (if commSize > 32 then commSize else 32) == 0
    {
      if hasCommitment { return REJECT; }
      var dormantRoot := HasDormantRoot();
      if dormantRoot && (req.jobId !in jobs || !jobs[req.jobId].IsRoot() || jobs[req.jobId].state != SUSPENDED) {
        return REJECT;
      }
      if schedulerActive { return REJECT; }
      var isThisDormantRoot := req.jobId in jobs && jobs[req.jobId].IsRoot();
      if (isThisDormantRoot && req.requestedNodeIndex > 0)
        || (!isThisDormantRoot && dormantRoot && req.requestedNodeIndex == 0) {
        return REJECT;
      }
      if !IsBusyOrCommitted() {
        if mode != TARGETED_REJOIN || HasDormantJob(req.jobId) { return ADOPT_FROM_IDLE; }
        return REJECT;
      }
      if req.requestedNodeIndex == 0 && !reactivationScheduling {
        if req.jobId !in jobs || jobs[req.jobId].state != ACTIVE {
          var current := currentJob.value;
          var job := jobs[current];
          if job.state == ACTIVE && !job.IsRoot() && job.IsLeaf() {
            Suspend(current);
            return ADOPT_REPLACE_CURRENT(current);
          }
        }
        if req.numHops > 0 && req.numHops % Max(32, commSize) == 0 { return DEFER; }
      }
      return REJECT;
    }

    ghost predicate Admissible(req: Request, schedulerActive: bool)
      reads this
    {
      && !hasCommitment && !schedulerActive
      && (HasDormantRoot() ==> req.jobId in jobs && jobs[req.jobId].IsRoot() && jobs[req.jobId].state == SUSPENDED)
      && (req.jobId in jobs && jobs[req.jobId].IsRoot() ==> req.requestedNodeIndex <= 0)
    }

    ghost predicate MayReplace(req: Request)
      reads this
    {
      && req.requestedNodeIndex == 0 && !reactivationScheduling
      && (req.jobId in jobs ==> jobs[req.jobId].state != ACTIVE)
      && currentJob.Some? && currentJob.value in jobs
      && !jobs[currentJob.value].IsRoot() && jobs[currentJob.value].IsLeaf()
    }
  }

  /** Ages of jobs since their arrival and their activation, and the number of their schedulers. */
  datatype Times = Times(sinceArrival: int -> real, sinceActivation: int -> real, numSchedulers: int -> nat)

  function Aged(jobs: map<int, Job>, times: Times): set<int> {
    set id | id in jobs && jobs[id].commitment == None && jobs[id].state == INACTIVE && times.sinceArrival(id) >= 10.0
  }

  function Cached(jobs: map<int, Job>, times: Times, jobCacheSize: nat): set<int> {
    set id | id in jobs && jobs[id].commitment == None && jobs[id].state == SUSPENDED && times.numSchedulers(id) == 0
             && jobCacheSize > 0 && !jobs[id].IsRoot()
  }

  /** The longest active jobs beyond the size of the cache. */
  ghost predicate Evicts(cached: set<int>, times: Times, jobCacheSize: nat, evicted: set<int>) {
    && evicted <= cached && |cached - evicted| == Min(|cached|, jobCacheSize)
    && forall e, k :: e in evicted && k in cached - evicted ==> times.sinceActivation(k) <= times.sinceActivation(e)
  }

  method ChooseEvicted(cached: set<int>, times: Times, jobCacheSize: nat) returns (evicted: set<int>)
    ensures Evicts(cached, times, jobCacheSize, evicted)
  {
    var queue := cached;
    evicted := {};
    while |queue| > jobCacheSize
      invariant queue == cached - evicted && evicted <= cached
      invariant |queue| >= Min(|cached|, jobCacheSize)
      invariant forall e, k :: e in evicted && k in queue ==> times.sinceActivation(k) <= times.sinceActivation(e)
    {
      ghost var some := Oldest(queue, times);
      var id :| id in queue && forall k :: k in queue ==> times.sinceActivation(k) <= times.sinceActivation(id);
      evicted, queue := evicted + {id}, queue - {id};
    }
    SubsetIsSmaller(queue, cached);
  }

  lemma {:induction false} SubsetIsSmaller(a: set<int>, b: set<int>)
    requires a <= b
    ensures |a| <= |b|
  {
    assert a + (b - a) == b;
  }

  lemma {:induction false} Oldest(s: set<int>, times: Times) returns (id: int)
    requires s != {}
    ensures id in s && forall k :: k in s ==> times.sinceActivation(k) <= times.sinceActivation(id)
  {
    id := SomeElement(s);
    var rest := s - {id};
    if rest != {} {
      var other := Oldest(rest, times);
      if times.sinceActivation(other) > times.sinceActivation(id) { id := other; }
    }
  }
}
