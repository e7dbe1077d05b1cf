/** The message handlers of a worker that change its job database. */
module Workers {
  import opened Basics
  import opened JobDatabases

  /** What the balancer knows about a job at the moment of a handler. */
  datatype Balancing = Balancing(globalEpoch: int, volume: Option<int>)

  datatype Message =
    | RequestNode(req: Request, mode: RequestMode, waiting: bool, schedulerActive: bool)
    | AnswerAdoptionOffer(jobId: int, index: int, accepted: bool, source: int, balancing: Balancing)
    | SendJobDescription(jobId: int, revision: int, balancing: Balancing)
    | VolumeUpdate(jobId: int, volume: int, epoch: int)
    | Interrupt(jobId: int)
    | NotifyTerminating(jobId: int)
    | ChildrenChanged(jobId: int, hasLeftChild: bool, hasRightChild: bool)
    | ForgetOldJobs(times: Times, jobCacheSize: nat)

  /** What a volume update sends: the volume to a child, a request for a missing child, or that the node leaves. */
  datatype Sent =
    | VolumeTo(left: bool, volume: int, epoch: int)
    | RequestFor(left: bool, epoch: int)
    | Leaving(index: int)

  function LeftIndex(job: Job): int { 2 * (job.index + 1) - 1 }

  function RightIndex(job: Job): int { 2 * (job.index + 1) }

  /** A child is missing that the volume allows and that was not yet requested in this epoch. */
  predicate WantsToGrow(job: Job, volume: int, epoch: int) {
    job.epochOfLastRequests < epoch
    && ((!job.hasLeftChild && LeftIndex(job) < volume) || (!job.hasRightChild && RightIndex(job) < volume))
  }

  /** A volume update ends the work on a job: it may not grow next to a dormant root, or its node must go. */
  predicate Ends(job: Job, volume: int, epoch: int, dormantRoot: bool) {
    (dormantRoot && WantsToGrow(job, volume, epoch)) || (job.index > 0 && job.index >= volume)
  }

  /** The job before and after, up to its children and its epoch of requests. */
  ghost predicate SameRole(a: Job, b: Job) {
    b == a.(hasLeftChild := b.hasLeftChild, hasRightChild := b.hasRightChild,
        epochOfLastRequests := b.epochOfLastRequests)
  }

  /** The work on the job has ended. */
  ghost predicate Ended(a: Job, b: Job) {
    SameRole(a.(commitment := None, state := if a.state == ACTIVE then SUSPENDED else a.state), b)
  }

  /** A job that stops working is suspended without children; one that is only committed loses its commitment. */
  ghost predicate Stopped(a: Job, b: Job) {
    if a.state == ACTIVE then b == a.(state := SUSPENDED, hasLeftChild := false, hasRightChild := false)
    else b == a.(commitment := None)
  }

  /** With reactivation scheduling, exactly the children beyond the volume are given up. */
  ghost predicate Pruned(a: Job, b: Job, volume: int, reactivationScheduling: bool) {
    && b.hasLeftChild == (a.hasLeftChild && (!reactivationScheduling || 2 * a.index + 1 < volume))
    && b.hasRightChild == (a.hasRightChild && (!reactivationScheduling || 2 * a.index + 2 < volume))
  }

  /** A job that stops working has no children any more; a commitment keeps those within the volume, or all. */
  ghost predicate PrunedAtEnd(a: Job, b: Job, volume: int) {
    if a.state == ACTIVE then !b.hasLeftChild && !b.hasRightChild
    else
      && (b.hasLeftChild ==> a.hasLeftChild) && (b.hasRightChild ==> a.hasRightChild)
      && (a.hasLeftChild && 2 * a.index + 1 < volume ==> b.hasLeftChild)
      && (a.hasRightChild && 2 * a.index + 2 < volume ==> b.hasRightChild)
  }

  /** A child is missing that the volume allows and that was not yet requested in this epoch. */
  ghost predicate Misses(job: Job, left: bool, volume: int, epoch: int) {
    job.epochOfLastRequests < epoch
    && if left then !job.hasLeftChild && 2 * job.index + 1 < volume
       else !job.hasRightChild && 2 * job.index + 2 < volume
  }

  /** What is sent on behalf of one potential child. With explicit updates a child is told the volume; a missing one is
      requested, unless requests are left to the job's scheduler; next to a dormant root the node leaves instead. */
  ghost predicate SentForChild(m: Sent, job: Job, volume: int, epoch: int, left: bool, dormantRoot: bool,
      explicit: bool, reactivationScheduling: bool) {
    match m
    case VolumeTo(l, v, e) =>
      l == left && v == volume && e == epoch && explicit && if left then job.hasLeftChild else job.hasRightChild
    case RequestFor(l, e) =>
      l == left && e == epoch && Misses(job, left, volume, epoch) && !dormantRoot && !reactivationScheduling
    case Leaving(i) => i == job.index && Misses(job, left, volume, epoch) && dormantRoot
  }

  /** Exactly that is sent, once each; nothing for the right child if the node has to leave because of the left one. */
  ghost predicate SentForVolume(sent: seq<Sent>, job: Job, volume: int, epoch: int, dormantRoot: bool, explicit: bool,
      reactivationScheduling: bool) {
    && (forall m :: multiset(sent)[m] <= 1)
    && (forall m :: m in sent <==>
          || SentForChild(m, job, volume, epoch, true, dormantRoot, explicit, reactivationScheduling)
          || (&& !(dormantRoot && Misses(job, true, volume, epoch))
              && SentForChild(m, job, volume, epoch, false, dormantRoot, explicit, reactivationScheduling)))
  }

  /** Only this job has changed. */
  ghost predicate OnlyJob(a: map<int, Job>, b: map<int, Job>, id: int) {
    id in a && id in b && b == a[id := b[id]]
  }

  class Worker {
    const db: JobDatabase
    const explicitVolumeUpdates: bool

    constructor (db: JobDatabase, explicitVolumeUpdates: bool)
      ensures this.db == db && this.explicitVolumeUpdates == explicitVolumeUpdates
    {
      this.db, this.explicitVolumeUpdates := db, explicitVolumeUpdates;
    }

    /** Ends the work on the busy job: an active job is suspended, a commitment is given up. */
    method EndWork(jobId: int)
      requires db.Valid() && jobId in db.jobs && db.jobs[jobId].Busy()
      modifies db
      ensures db.Valid() && !db.IsBusyOrCommitted()
      ensures OnlyJob(old(db.jobs), db.jobs, jobId) && Ended(old(db.jobs)[jobId], db.jobs[jobId])
      ensures Stopped(old(db.jobs)[jobId], db.jobs[jobId])
    {
      if db.jobs[jobId].state == ACTIVE {
        db.ActiveIsAlone(jobId);
        db.Suspend(jobId);
      } else {
        db.IdleWhileCommitted(jobId);
        db.Uncommit(jobId);
      }
    }

    method SetJob(jobId: int, job: Job)
      requires db.Valid() && jobId in db.jobs && job.state == db.jobs[jobId].state
      requires job.commitment == db.jobs[jobId].commitment
      modifies db`jobs
      ensures db.Valid() && db.jobs == old(db.jobs)[jobId := job]
    {
      ChangeDetails(db.jobs, db.load, db.currentJob, db.hasCommitment, jobId, job);
      db.jobs := db.jobs[jobId := job];
    }

    // ----- volume updates ------------------------------------------------------------------------

    /** Handles the two potential children; work ends if the job would have to grow next to a dormant root. */
    method PropagateVolumeUpdate(jobId: int, volume: int, epoch: int) returns (ended: bool, sent: seq<Sent>)
      requires db.Valid() && jobId in db.jobs && db.jobs[jobId].Busy()
      modifies db
      ensures db.Valid() && OnlyJob(old(db.jobs), db.jobs, jobId)
      ensures ended <==> old(db.HasDormantRoot()) && WantsToGrow(old(db.jobs)[jobId], volume, epoch)
      ensures ended ==> Ended(old(db.jobs)[jobId], db.jobs[jobId])
      ensures ended ==> PrunedAtEnd(old(db.jobs)[jobId], db.jobs[jobId], volume)
      ensures !ended ==> SameRole(old(db.jobs)[jobId], db.jobs[jobId])
      ensures !ended ==> Pruned(old(db.jobs)[jobId], db.jobs[jobId], volume, db.reactivationScheduling)
      ensures SentForVolume(sent, old(db.jobs)[jobId], volume, epoch, old(db.HasDormantRoot()), explicitVolumeUpdates,
                  db.reactivationScheduling)
    {
      hide Inv;
      ghost var before := db.jobs;
      var job := db.jobs[jobId];
      sent := [];
      ghost var at := Update(volume, epoch, DormantRootIn(before), explicitVolumeUpdates, db.reactivationScheduling);
      hide SentForVolume, SentToChild, ChildHandled, SameRole, Ended, Stopped, Pruned, PrunedAtEnd, Misses;
      HandledNone(job, at);
      hide Handled;
      for i := 0 to 2
        invariant db.Valid() && OnlyJob(before, db.jobs, jobId) && Handled(i, job, db.jobs[jobId], at, sent)
      {
        ghost var now := db.jobs;
        HandledRole(i, job, now[jobId], at, sent);
        DormantRootStays(before, now, jobId);
        var leaves, m := HandleChild(jobId, volume, epoch, i == 0);
        if leaves {
          HandledEnds(i, job, now[jobId], db.jobs[jobId], at, sent, m);
          return true, sent + m;
        }
        HandledNext(i, job, now[jobId], db.jobs[jobId], at, sent, m);
        sent := sent + m;
      }
      HandledBoth(job, db.jobs[jobId], at, sent);
      return false, sent;
    }

    /** One potential child: told the volume, given up, requested, or the reason to end the work. */
    method HandleChild(jobId: int, volume: int, epoch: int, left: bool) returns (ended: bool, sent: seq<Sent>)
      requires db.Valid() && jobId in db.jobs && db.jobs[jobId].Busy()
      modifies db
      ensures db.Valid() && OnlyJob(old(db.jobs), db.jobs, jobId)
      ensures ended <==> DormantRootIn(old(db.jobs)) && Misses(old(db.jobs)[jobId], left, volume, epoch)
      ensures ended ==> Ended(old(db.jobs)[jobId], db.jobs[jobId])
      ensures ended ==> Stopped(old(db.jobs)[jobId], db.jobs[jobId])
      ensures !ended ==> ChildHandled(old(db.jobs)[jobId], db.jobs[jobId], volume, left, db.reactivationScheduling)
      ensures sent == SentToChild(old(db.jobs)[jobId], volume, epoch, left, DormantRootIn(old(db.jobs)),
                          explicitVolumeUpdates, db.reactivationScheduling)
    {
      hide Inv;
      var job := db.jobs[jobId];
      var has := if left then job.hasLeftChild else job.hasRightChild;
      var nextIndex := if left then LeftIndex(job) else RightIndex(job);
      ended, sent := false, [];
      if has {
        if explicitVolumeUpdates { sent := [VolumeTo(left, volume, epoch)]; }
        if db.reactivationScheduling && nextIndex >= volume {
          SetJob(jobId, if left then job.(hasLeftChild := false) else job.(hasRightChild := false));
        }
      } else if nextIndex < volume && job.epochOfLastRequests < epoch {
        if db.HasDormantRoot() {
          EndWork(jobId);
          return true, [Leaving(job.index)];
        }
        if !db.reactivationScheduling { sent := [RequestFor(left, epoch)]; }
      }
    }

    /** The new volume is applied; the work on a busy job may end. */
    method UpdateVolume(jobId: int, volume: int, epoch: int) returns (sent: seq<Sent>)
      requires db.Valid()
      modifies db
      ensures db.Valid() && VolumeUpdated(old(db.jobs), db.jobs, jobId, volume, epoch, db.reactivationScheduling)
      ensures jobId in old(db.jobs) && old(db.jobs)[jobId].Busy() ==>
                var job := old(db.jobs)[jobId];
                exists m ::
                  && SentForVolume(m, job, volume, epoch, DormantRootIn(old(db.jobs)), explicitVolumeUpdates,
                         db.reactivationScheduling)
                  && sent == m + if 0 < job.index && volume <= job.index && !db.reactivationScheduling
                                 then [Leaving(job.index)] else []
      ensures !(jobId in old(db.jobs) && old(db.jobs)[jobId].Busy()) ==> sent == []
    {
      hide Inv, DormantRootIn, SentForVolume, Ends, Ended, SameRole, Pruned, PrunedAtEnd;
      sent := [];
      if jobId !in db.jobs { return; }
      ghost var before := db.jobs;
      var job := db.jobs[jobId];
      SetJob(jobId, job.(volume := volume));
      if job.Busy() {
        ghost var applied := db.jobs;
        DormantRootUnchanged(before, applied, jobId);
        EndsAlike(job, applied[jobId], volume, epoch, DormantRootIn(before));
        sent := UpdateBusyJob(jobId, volume, epoch);
        SentAlike(job, applied[jobId], volume, epoch, DormantRootIn(before), explicitVolumeUpdates,
            db.reactivationScheduling);
      }
    }

    method UpdateBusyJob(jobId: int, volume: int, epoch: int) returns (sent: seq<Sent>)
      requires db.Valid() && jobId in db.jobs && db.jobs[jobId].Busy()
      modifies db
      ensures db.Valid() && OnlyJob(old(db.jobs), db.jobs, jobId)
      ensures db.jobs[jobId].epochOfLastRequests == epoch
      ensures var job := old(db.jobs)[jobId];
              if Ends(job, volume, epoch, DormantRootIn(old(db.jobs)))
              then Ended(job, db.jobs[jobId]) && PrunedAtEnd(job, db.jobs[jobId], volume)
              else SameRole(job, db.jobs[jobId]) && Pruned(job, db.jobs[jobId], volume, db.reactivationScheduling)
      ensures var job := old(db.jobs)[jobId];
              exists m ::
                && SentForVolume(m, job, volume, epoch, DormantRootIn(old(db.jobs)), explicitVolumeUpdates,
                       db.reactivationScheduling)
                && sent == m + if 0 < job.index && volume <= job.index && !db.reactivationScheduling
                               then [Leaving(job.index)] else []
    {
      hide Inv, DormantRootIn, SentForVolume;
      var job := db.jobs[jobId];
      var ended;
      ended, sent := PropagateVolumeUpdate(jobId, volume, epoch);
      ghost var m := sent;
      assert m == m + [];
      SetJob(jobId, db.jobs[jobId].(epochOfLastRequests := epoch));
      if job.index > 0 && job.index >= volume {
        EndWork(jobId);
        if !db.reactivationScheduling { sent := sent + [Leaving(job.index)]; }
      }
    }

    /** Applies the volume that is known for a job that has just been adopted. */
    method InitiateVolumeUpdate(jobId: int, balancing: Balancing)
      requires db.Valid() && jobId in db.jobs
      modifies db
      ensures db.Valid() && OnlyJob(old(db.jobs), db.jobs, jobId)
      ensures match Applied(old(db.jobs)[jobId], balancing, explicitVolumeUpdates)
              case None => db.jobs == old(db.jobs) && db.load == old(db.load)
              case Some(volume) =>
                VolumeUpdated(old(db.jobs), db.jobs, jobId, volume, balancing.globalEpoch, db.reactivationScheduling)
    {
      var job := db.jobs[jobId];
      if explicitVolumeUpdates {
        if job.IsRoot() && job.volume > 1 { var sent := UpdateVolume(jobId, job.volume, balancing.globalEpoch); }
      } else if balancing.globalEpoch >= job.epochOfLastCommitment && balancing.volume.Some? {
        var sent := UpdateVolume(jobId, balancing.volume.value, balancing.globalEpoch);
      }
    }

    // ----- adoption ---------------------------------------------------------------------------------

    /** An adopted request becomes the only commitment of an idle worker. */
    method TryAdoptRequest(req: Request, mode: RequestMode, waiting: bool, schedulerActive: bool)
        returns (result: AdoptionResult)
      requires db.Valid()
      modifies db
      ensures db.Valid()
      ensures db.reactivationScheduling && mode != TARGETED_REJOIN && waiting && req.requestedNodeIndex > 0 ==>
                result == REJECT
      ensures result.ADOPT_FROM_IDLE? || result.ADOPT_REPLACE_CURRENT? ==>
                && !old(db.hasCommitment) && db.hasCommitment && db.load == 0
                && db.JobCommitted(req.jobId) && db.jobs[req.jobId].commitment == Some(req)
                && db.jobs[req.jobId].index == req.requestedNodeIndex
      ensures result.ADOPT_FROM_IDLE? || result.ADOPT_REPLACE_CURRENT? ==>
                var job := if req.jobId in old(db.jobs) then old(db.jobs)[req.jobId] else NewJob;
                db.jobs[req.jobId] == job.(commitment := Some(req), index := req.requestedNodeIndex,
                  epochOfLastCommitment := req.balancingEpoch)
      ensures forall id :: id in old(db.jobs) && id != req.jobId ==>
                id in db.jobs && db.jobs[id] ==
                if result.ADOPT_REPLACE_CURRENT? && result.removedJob == id
                then old(db.jobs)[id].(state := SUSPENDED, hasLeftChild := false, hasRightChild := false)
                else old(db.jobs)[id]
      ensures !(result.ADOPT_FROM_IDLE? || result.ADOPT_REPLACE_CURRENT?) ==>
                db.jobs == old(db.jobs) && db.load == old(db.load) && db.hasCommitment == old(db.hasCommitment)
    {
      if db.reactivationScheduling && mode != TARGETED_REJOIN && waiting && req.requestedNodeIndex > 0 {
        result := REJECT;
      } else {
        result := db.TryAdopt(req, mode, schedulerActive);
      }
      if result.ADOPT_FROM_IDLE? || result.ADOPT_REPLACE_CURRENT? {
        assert !db.IsBusyOrCommitted();
        if !db.Has(req.jobId) { db.CreateJob(req.jobId); }
        db.Commit(req);
      }
    }

    /** The parent's answer to an adoption offer counts only if it matches the commitment. */
    method HandleAnswerAdoptionOffer(jobId: int, index: int, accepted: bool, source: int, balancing: Balancing)
      requires db.Valid()
      modifies db
      ensures db.Valid()
      ensures !Matches(old(db.jobs), jobId, index, source) ==> db.jobs == old(db.jobs) && db.load == old(db.load)
      ensures Matches(old(db.jobs), jobId, index, source) ==>
                var job := old(db.jobs)[jobId];
                && OnlyJob(old(db.jobs), db.jobs, jobId)
                && (!accepted ==> Ended(job, db.jobs[jobId]) && db.jobs[jobId] == job.(commitment := None))
                && (accepted && EndedBy(old(db.jobs), jobId, balancing, explicitVolumeUpdates) ==>
                      db.jobs[jobId].state == job.state && db.jobs[jobId].commitment == None)
                && (accepted && !EndedBy(old(db.jobs), jobId, balancing, explicitVolumeUpdates) ==>
                      if job.HasDescription() then db.jobs[jobId].state == ACTIVE && db.currentJob == Some(jobId)
                      else db.jobs[jobId].state == job.state && db.jobs[jobId].commitment == job.commitment)
                && (accepted && !EndedBy(old(db.jobs), jobId, balancing, explicitVolumeUpdates) ==>
                      db.jobs[jobId].desiredRevision == job.commitment.value.revision)
    {
      hide Inv;
      if !db.JobCommitted(jobId) { return; }
      var req := db.jobs[jobId].commitment.value;
      if req.requestedNodeIndex != index || req.requestingNodeRank != source { return; }
      db.IdleWhileCommitted(jobId);
      if !accepted {
        db.Uncommit(jobId);
        return;
      }
      InitiateVolumeUpdate(jobId, balancing);
      if !db.JobCommitted(jobId) { return; }
      db.IdleWhileCommitted(jobId);
      SetJob(jobId, db.jobs[jobId].(desiredRevision := req.revision));
      if db.jobs[jobId].HasDescription() { Activate(jobId, req); } else { db.IdleWhileCommitted(jobId); }
    }

    /** A commitment turns into work. */
    method Activate(jobId: int, req: Request)
      requires db.Valid() && db.JobCommitted(jobId) && db.jobs[jobId].commitment == Some(req) && req.jobId == jobId
      modifies db
      ensures db.Valid() && OnlyJob(old(db.jobs), db.jobs, jobId)
      ensures db.jobs[jobId].state == ACTIVE && db.jobs[jobId].commitment == None && db.currentJob == Some(jobId)
      ensures var job := old(db.jobs)[jobId];
              db.jobs[jobId] == job.(commitment := None, state := ACTIVE, volume := Max(1, job.volume),
                index := if job.state == SUSPENDED then req.requestedNodeIndex else job.index)
    {
      db.IdleWhileCommitted(jobId);
      db.Uncommit(jobId);
      if db.jobs[jobId].state == SUSPENDED { db.Reactivate(req); } else { db.Execute(jobId); }
    }

    /** The next revision of a description is stored; a committed job starts to work. */
    method HandleSendJobDescription(jobId: int, revision: int, balancing: Balancing)
      requires db.Valid()
      modifies db
      ensures db.Valid()
      ensures !(jobId in old(db.jobs) && revision == old(db.jobs)[jobId].Revision() + 1) ==> db.jobs == old(db.jobs)
      ensures jobId in old(db.jobs) && revision == old(db.jobs)[jobId].Revision() + 1 ==>
                && OnlyJob(old(db.jobs), db.jobs, jobId)
                && db.jobs[jobId].numRevisions == old(db.jobs)[jobId].numRevisions + 1
                && db.jobs[jobId].commitment == None
                && (old(db.JobCommitted(jobId)) ==>
                      var started := old(db.jobs)[jobId := Begun(old(db.jobs)[jobId])];
                      db.jobs[jobId].state ==
                      if EndedBy(started, jobId, balancing, explicitVolumeUpdates) then SUSPENDED else ACTIVE)
                && (old(db.JobCommitted(jobId)) ==>
                      db.jobs[jobId].desiredRevision == old(db.jobs)[jobId].commitment.value.revision)
                && (!old(db.JobCommitted(jobId)) ==>
                      db.jobs[jobId] == old(db.jobs)[jobId].(numRevisions := old(db.jobs)[jobId].numRevisions + 1))
                && (!old(db.JobCommitted(jobId)) ==> db.jobs[jobId].state == old(db.jobs)[jobId].state)
    {
      hide Inv;
      if jobId !in db.jobs || revision != db.jobs[jobId].Revision() + 1 { return; }
      var job := db.jobs[jobId];
      SetJob(jobId, job.(numRevisions := job.numRevisions + 1));
      if db.JobCommitted(jobId) {
        SetJob(jobId, db.jobs[jobId].(desiredRevision := job.commitment.value.revision));
        db.IdleWhileCommitted(jobId);
        db.Uncommit(jobId);
        db.Execute(jobId);
        assert db.jobs == old(db.jobs)[jobId := Begun(job)];
        InitiateVolumeUpdate(jobId, balancing);
      }
    }

    /** Interruption ends the work on a job; termination removes the job. */
    method InterruptJob(jobId: int, terminate: bool)
      requires db.Valid()
      modifies db
      ensures db.Valid()
      ensures jobId !in old(db.jobs) ==> db.jobs == old(db.jobs)
      ensures jobId in old(db.jobs) && terminate ==> db.jobs == old(db.jobs) - {jobId}
      ensures jobId in old(db.jobs) && !terminate ==>
                OnlyJob(old(db.jobs), db.jobs, jobId) && Ended(old(db.jobs)[jobId], db.jobs[jobId])
      ensures jobId in old(db.jobs) && !terminate ==> Stopped(old(db.jobs)[jobId], db.jobs[jobId])
    {
      if jobId !in db.jobs { return; }
      ghost var before := db.jobs;
      var job := db.jobs[jobId];
      if !terminate && job.commitment == None && (job.state == SUSPENDED || job.state == INACTIVE) { return; }
      if job.commitment.Some? {
        db.IdleWhileCommitted(jobId);
        db.Uncommit(jobId);
      }
      if terminate {
        db.Terminate(jobId);
        assert db.jobs == before - {jobId};
      } else if db.jobs[jobId].state == ACTIVE {
        db.Suspend(jobId);
      }
    }

    // ----- any sequence of messages -----------------------------------------------------------------

    method Handle(message: Message)
      requires db.Valid()
      modifies db
      ensures db.Valid()
    {
      match message
      case RequestNode(req, mode, waiting, schedulerActive) =>
        var result := TryAdoptRequest(req, mode, waiting, schedulerActive);
      case AnswerAdoptionOffer(jobId, index, accepted, source, balancing) =>
        HandleAnswerAdoptionOffer(jobId, index, accepted, source, balancing);
      case SendJobDescription(jobId, revision, balancing) => HandleSendJobDescription(jobId, revision, balancing);
      case VolumeUpdate(jobId, volume, epoch) => var sent := UpdateVolume(jobId, volume, epoch);
      case Interrupt(jobId) => InterruptJob(jobId, false);
      case NotifyTerminating(jobId) => InterruptJob(jobId, true);
      case ChildrenChanged(jobId, hasLeftChild, hasRightChild) =>
        if db.Has(jobId) {
          SetJob(jobId, db.jobs[jobId].(hasLeftChild := hasLeftChild, hasRightChild := hasRightChild));
        }
      case ForgetOldJobs(times, jobCacheSize) =>
        var evicted := db.ForgetOldJobs(times, jobCacheSize);
    }

    /**
     No order of messages leads out of the invariant, and none fails an assertion that the modelled members of the
     database and of jobs make.
     */
    method Serve(messages: seq<Message>)
      requires db.Valid()
      modifies db
      ensures db.Valid()
    {
      for i := 0 to |messages|
        invariant db.Valid()
      {
        Handle(messages[i]);
      }
    }
  }

  /** The volume that is applied to a job that has just been adopted, if one is known. */
  function Applied(job: Job, balancing: Balancing, explicitUpdates: bool): Option<int> {
    if explicitUpdates then if job.IsRoot() && job.volume > 1 then Some(job.volume) else None
    else if balancing.globalEpoch >= job.epochOfLastCommitment then balancing.volume
    else None
  }

  /** The known volume ends the work on this job at once. */
  ghost predicate EndedBy(jobs: map<int, Job>, jobId: int, balancing: Balancing, explicitUpdates: bool)
    requires jobId in jobs
  {
    var volume := Applied(jobs[jobId], balancing, explicitUpdates);
    volume.Some? && Ends(jobs[jobId], volume.value, balancing.globalEpoch, DormantRootIn(jobs))
  }

  /** A committed job with its next revision that has started to work. */
  ghost function Begun(job: Job): Job
    requires job.commitment.Some?
  {
    job.(numRevisions := job.numRevisions + 1, desiredRevision := job.commitment.value.revision,
         commitment := None, state := ACTIVE, volume := Max(1, job.volume))
  }

  ghost predicate Matches(jobs: map<int, Job>, jobId: int, index: int, source: int) {
    jobId in jobs && jobs[jobId].commitment.Some?
    && jobs[jobId].commitment.value.requestedNodeIndex == index
    && jobs[jobId].commitment.value.requestingNodeRank == source
  }

  ghost predicate VolumeUpdated(a: map<int, Job>, b: map<int, Job>, jobId: int, volume: int, epoch: int,
      reactivationScheduling: bool) {
    if jobId !in a then b == a
    else
      var job := a[jobId].(volume := volume);
      && OnlyJob(a, b, jobId)
      && if !job.Busy() then b[jobId] == job
         else
           && b[jobId].epochOfLastRequests == epoch
           && if Ends(a[jobId], volume, epoch, DormantRootIn(a))
              then Ended(job, b[jobId]) && PrunedAtEnd(job, b[jobId], volume)
              else SameRole(job, b[jobId]) && Pruned(job, b[jobId], volume, reactivationScheduling)
  }

  /** At most the flag of this child changes. */
  ghost predicate ChildHandled(a: Job, b: Job, volume: int, left: bool, reactivationScheduling: bool) {
    if left
    then b == a.(hasLeftChild := a.hasLeftChild && (!reactivationScheduling || 2 * a.index + 1 < volume))
    else b == a.(hasRightChild := a.hasRightChild && (!reactivationScheduling || 2 * a.index + 2 < volume))
  }

  ghost function SentToChild(job: Job, volume: int, epoch: int, left: bool, dormantRoot: bool, explicit: bool,
      reactivationScheduling: bool): seq<Sent> {
    if if left then job.hasLeftChild else job.hasRightChild then
      if explicit then [VolumeTo(left, volume, epoch)] else []
    else if !Misses(job, left, volume, epoch) then []
    else if dormantRoot then [Leaving(job.index)]
    else if reactivationScheduling then []
    else [RequestFor(left, epoch)]
  }

  /** What a volume update goes by. */
  datatype Update = Update(volume: int, epoch: int, dormantRoot: bool, explicit: bool, reactivationScheduling: bool)

  ghost function SentAt(job: Job, left: bool, at: Update): seq<Sent> {
    SentToChild(job, at.volume, at.epoch, left, at.dormantRoot, at.explicit, at.reactivationScheduling)
  }

  /** The first potential children were handled and did not end the work. */
  ghost predicate Handled(i: int, job: Job, now: Job, at: Update, sent: seq<Sent>) {
    && SameRole(job, now) && now.epochOfLastRequests == job.epochOfLastRequests
    && now.hasLeftChild == (job.hasLeftChild
                            && (i == 0 || !at.reactivationScheduling || 2 * job.index + 1 < at.volume))
    && now.hasRightChild == (job.hasRightChild
                             && (i <= 1 || !at.reactivationScheduling || 2 * job.index + 2 < at.volume))
    && (i > 0 ==> !(at.dormantRoot && Misses(job, true, at.volume, at.epoch)))
    && (i > 1 ==> !(at.dormantRoot && Misses(job, false, at.volume, at.epoch)))
    && sent == (if i > 0 then SentAt(job, true, at) else []) + (if i > 1 then SentAt(job, false, at) else [])
  }

  lemma {:induction false} HandledNone(job: Job, at: Update)
    ensures Handled(0, job, job, at, [])
  {
    hide SentToChild, Misses;
  }

  lemma {:induction false} HandledRole(i: int, job: Job, now: Job, at: Update, sent: seq<Sent>)
    requires Handled(i, job, now, at, sent)
    ensures SameRole(job, now) && now.Busy() == job.Busy()
  {
    hide SentToChild, Misses;
  }

  /** Handling one child does not matter to the other. */
  lemma {:induction false} OtherChild(i: int, job: Job, now: Job, at: Update, sent: seq<Sent>)
    requires 0 <= i < 2 && Handled(i, job, now, at, sent)
    ensures Misses(now, i == 0, at.volume, at.epoch) == Misses(job, i == 0, at.volume, at.epoch)
    ensures SentAt(now, i == 0, at) == SentAt(job, i == 0, at)
  {
  }

  lemma {:induction false} HandledNext(i: int, job: Job, now: Job, after: Job, at: Update, sent: seq<Sent>,
      m: seq<Sent>)
    requires 0 <= i < 2 && Handled(i, job, now, at, sent)
    requires ChildHandled(now, after, at.volume, i == 0, at.reactivationScheduling)
    requires m == SentAt(now, i == 0, at) && !(at.dormantRoot && Misses(now, i == 0, at.volume, at.epoch))
    ensures Handled(i + 1, job, after, at, sent + m)
  {
    OtherChild(i, job, now, at, sent);
    hide SentToChild, Misses;
    assert [] + m == m && m + [] == m;
  }

  lemma {:induction false} HandledEnds(i: int, job: Job, now: Job, after: Job, at: Update, sent: seq<Sent>,
      m: seq<Sent>)
    requires 0 <= i < 2 && Handled(i, job, now, at, sent) && Ended(now, after) && Stopped(now, after)
    requires m == SentAt(now, i == 0, at) && at.dormantRoot && Misses(now, i == 0, at.volume, at.epoch)
    ensures Ended(job, after) && PrunedAtEnd(job, after, at.volume) && WantsToGrow(job, at.volume, at.epoch)
    ensures SentForVolume(sent + m, job, at.volume, at.epoch, at.dormantRoot, at.explicit, at.reactivationScheduling)
  {
    OtherChild(i, job, now, at, sent);
    hide SentToChild, SentForVolume;
    SentUntilEnd(i, job, now, at, sent, m);
  }

  lemma {:induction false} SentUntilEnd(i: int, job: Job, now: Job, at: Update, sent: seq<Sent>, m: seq<Sent>)
    requires 0 <= i < 2 && Handled(i, job, now, at, sent)
    requires m == SentAt(job, i == 0, at) && at.dormantRoot && Misses(job, i == 0, at.volume, at.epoch)
    ensures SentForVolume(sent + m, job, at.volume, at.epoch, at.dormantRoot, at.explicit, at.reactivationScheduling)
  {
    hide SentToChild, SentForVolume, Misses, SameRole;
    assert i == 0 ==> sent + m == m + [];
    assert i == 1 ==> sent == SentAt(job, true, at);
    SentOnce(SentAt(job, true, at), if i == 0 then [] else m, job, at.volume, at.epoch, at.dormantRoot, at.explicit,
        at.reactivationScheduling);
  }

  lemma {:induction false} HandledBoth(job: Job, now: Job, at: Update, sent: seq<Sent>)
    requires Handled(2, job, now, at, sent)
    ensures SameRole(job, now) && Pruned(job, now, at.volume, at.reactivationScheduling)
    ensures !(at.dormantRoot && WantsToGrow(job, at.volume, at.epoch))
    ensures SentForVolume(sent, job, at.volume, at.epoch, at.dormantRoot, at.explicit, at.reactivationScheduling)
  {
    SentOnce(SentAt(job, true, at), SentAt(job, false, at), job, at.volume, at.epoch, at.dormantRoot, at.explicit,
        at.reactivationScheduling);
    hide SentToChild, SentForVolume;
  }

  /** The messages to both children, which follow the left one's if that did not end the work. */
  lemma {:induction false} SentOnce(first: seq<Sent>, second: seq<Sent>, job: Job, volume: int, epoch: int,
      dormantRoot: bool, explicit: bool, reactivationScheduling: bool)
    requires first == SentToChild(job, volume, epoch, true, dormantRoot, explicit, reactivationScheduling)
    requires if dormantRoot && Misses(job, true, volume, epoch) then second == []
             else second == SentToChild(job, volume, epoch, false, dormantRoot, explicit, reactivationScheduling)
    ensures SentForVolume(first + second, job, volume, epoch, dormantRoot, explicit, reactivationScheduling)
  {
    hide SentToChild, Misses, SentForChild;
    var silent := dormantRoot && Misses(job, true, volume, epoch);
    forall m
      ensures m in first <==>
              SentForChild(m, job, volume, epoch, true, dormantRoot, explicit, reactivationScheduling)
      ensures m in second <==>
              !silent && SentForChild(m, job, volume, epoch, false, dormantRoot, explicit, reactivationScheduling)
      ensures m in first ==> m !in second
    {
      SentIs(m, job, volume, epoch, true, dormantRoot, explicit, reactivationScheduling);
      SentIs(m, job, volume, epoch, false, dormantRoot, explicit, reactivationScheduling);
      if m in first && m in second {
        SentApart(m, job, volume, epoch, dormantRoot, explicit, reactivationScheduling);
      }
    }
    OneToChild(job, volume, epoch, true, dormantRoot, explicit, reactivationScheduling);
    OneToChild(job, volume, epoch, false, dormantRoot, explicit, reactivationScheduling);
    NoneRepeated(first, second);
    assert forall m :: m in first + second <==> m in first || m in second;
  }

  lemma {:induction false} OneToChild(job: Job, volume: int, epoch: int, left: bool, dormantRoot: bool, explicit: bool,
      reactivationScheduling: bool)
    ensures |SentToChild(job, volume, epoch, left, dormantRoot, explicit, reactivationScheduling)| <= 1
  {
  }

  lemma {:induction false} SentApart(m: Sent, job: Job, volume: int, epoch: int, dormantRoot: bool, explicit: bool,
      reactivationScheduling: bool)
    requires SentForChild(m, job, volume, epoch, true, dormantRoot, explicit, reactivationScheduling)
             && SentForChild(m, job, volume, epoch, false, dormantRoot, explicit, reactivationScheduling)
    ensures dormantRoot && Misses(job, true, volume, epoch)
  {
  }

  lemma {:induction false} SentIs(m: Sent, job: Job, volume: int, epoch: int, left: bool, dormantRoot: bool,
      explicit: bool, reactivationScheduling: bool)
    ensures m in SentToChild(job, volume, epoch, left, dormantRoot, explicit, reactivationScheduling) <==>
            SentForChild(m, job, volume, epoch, left, dormantRoot, explicit, reactivationScheduling)
  {
  }

  lemma {:induction false} NoneRepeated(first: seq<Sent>, second: seq<Sent>)
    requires |first| <= 1 && |second| <= 1 && forall m :: m in first ==> m !in second
    ensures forall m :: multiset(first + second)[m] <= 1
  {
    if first == [] {
      assert first + second == second;
      assert second == [] || second == [second[0]];
    } else {
      assert first == [first[0]] && first[0] !in second;
      assert second == [] || second == [second[0]];
      assert multiset(first + second) == multiset{first[0]} + multiset(second);
    }
  }

  lemma {:induction false} SentAlike(a: Job, b: Job, volume: int, epoch: int, dormantRoot: bool, explicit: bool,
      reactivationScheduling: bool)
    requires b == a.(volume := b.volume)
    ensures forall sent ::
              SentForVolume(sent, b, volume, epoch, dormantRoot, explicit, reactivationScheduling) ==>
              SentForVolume(sent, a, volume, epoch, dormantRoot, explicit, reactivationScheduling)
  {
    assert forall left :: Misses(a, left, volume, epoch) <==> Misses(b, left, volume, epoch);
    assert forall m, left ::
        SentForChild(m, a, volume, epoch, left, dormantRoot, explicit, reactivationScheduling) <==>
        SentForChild(m, b, volume, epoch, left, dormantRoot, explicit, reactivationScheduling);
    hide SentForChild, Misses;
  }

  lemma {:induction false} EndsAlike(a: Job, b: Job, volume: int, epoch: int, dormantRoot: bool)
    requires b == a.(volume := b.volume)
    ensures Ends(a, volume, epoch, dormantRoot) <==> Ends(b, volume, epoch, dormantRoot)
  {
  }

  lemma {:induction false} DormantRootStays(a: map<int, Job>, b: map<int, Job>, id: int)
    requires OnlyJob(a, b, id) && SameRole(a[id], b[id])
    ensures DormantRootIn(a) <==> DormantRootIn(b)
  {
    DormantRootUnchanged(a, b, id);
  }

  lemma {:induction false} DormantRootUnchanged(a: map<int, Job>, b: map<int, Job>, id: int)
    requires OnlyJob(a, b, id) && a[id].state == b[id].state && a[id].index == b[id].index
    ensures DormantRootIn(a) <==> DormantRootIn(b)
  {
    assert forall k :: k in a <==> k in b;
    assert forall k :: k in a ==> a[k].state == b[k].state && a[k].index == b[k].index;
    if DormantRootIn(a) {
      var k :| k in a && a[k].IsRoot() && a[k].state == SUSPENDED;
      assert k in b && b[k].IsRoot();
    }
    if DormantRootIn(b) {
      var k :| k in b && b[k].IsRoot() && b[k].state == SUSPENDED;
      assert k in a && a[k].IsRoot();
    }
  }
}
