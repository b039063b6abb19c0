/** What the steps on the job queue do in any reachable queue, told by the rows
    themselves: which requests queue a job and with what attempt count, which job a
    claim takes and which revision it builds, and what a rejected draft does. */
module GenerationSteps {
  import opened Collections
  import opened Outcomes
  import opened Arithmetic
  import opened GenerationJobs

  predicate Waits(job: Job) {
    job.status == Queued || job.status == Running
  }

  /** No job of the fingerprint was created later; among equals the ids decide. */
  ghost predicate Newest(jobs: map<JobId, Job>, fingerprint: string, id: JobId) {
    && id in jobs && jobs[id].fingerprint == fingerprint
    && forall i :: i in jobs && jobs[i].fingerprint == fingerprint && i != id ==>
                     jobs[i].created < jobs[id].created || (jobs[i].created == jobs[id].created && i < id)
  }

  /** An absent owner and the empty one are the same to the index. */
  predicate SameOwner(a: Option<string>, b: Option<string>) {
    a == b || (a in {None, Some("")} && b in {None, Some("")})
  }

  predicate BothWait(a: Job, b: Job) {
    Waits(a) && Waits(b) && a.fingerprint == b.fingerprint
  }

  /** No other job of the fingerprint waits or runs for the owner. */
  ghost predicate NoneElseWaits(jobs: map<JobId, Job>, id: JobId, fingerprint: string, owner: Option<string>) {
    forall i :: i in jobs && i != id && jobs[i].fingerprint == fingerprint && SameOwner(jobs[i].owner, owner) ==> !Waits(jobs[i])
  }

  // ----- one waiting job -----

  lemma IndexIff(jobs: map<JobId, Job>)
    ensures OneActive(jobs) <==>
            forall i, j ::
              i in jobs && j in jobs && i != j && BothWait(jobs[i], jobs[j]) ==> !SameOwner(jobs[i].owner, jobs[j].owner)
  {
    forall i, j | i in jobs && j in jobs && i != j
      ensures ActiveClash(jobs[i], jobs[j]) <==> BothWait(jobs[i], jobs[j]) && SameOwner(jobs[i].owner, jobs[j].owner)
    {
    }
  }

  /** In every reachable queue at most one job of a fingerprint waits or runs for an
      owner. */
  lemma OneWaits(policy: Policy, qs: seq<Queue>, steps: seq<Step>, k: nat, i: JobId, j: JobId)
    requires Run(policy, qs, steps) && k < |qs| && i in qs[k].jobs && j in qs[k].jobs && i != j
    requires BothWait(qs[k].jobs[i], qs[k].jobs[j])
    ensures !SameOwner(qs[k].jobs[i].owner, qs[k].jobs[j].owner)
  {
    RunKeeps(policy, qs, steps, k);
    IndexIff(qs[k].jobs);
  }

  /** A waiting job fits the index exactly when no other one waits. */
  lemma FitsIff(jobs: map<JobId, Job>, id: JobId, job: Job)
    requires OneActive(jobs) && Waits(job)
    ensures OneActive(jobs[id := job]) <==> NoneElseWaits(jobs, id, job.fingerprint, job.owner)
  {
    var more := jobs[id := job];
    IndexIff(jobs);
    IndexIff(more);
    hide OneActive;
    if OneActive(more) {
      forall i | i in jobs && i != id && jobs[i].fingerprint == job.fingerprint && SameOwner(jobs[i].owner, job.owner)
        ensures !Waits(jobs[i])
      {
        assert more[i] == jobs[i] && more[id] == job;
      }
    }
  }

  // ----- queueing -----

  lemma NewestIsLatest(jobs: map<JobId, Job>, fingerprint: string, id: JobId)
    requires Newest(jobs, fingerprint, id)
    ensures LatestJob(jobs, fingerprint) == Some(id)
  {
    assert IsLatest(jobs, fingerprint, id);
  }

  lemma LatestIsNewest(jobs: map<JobId, Job>, fingerprint: string)
    ensures var latest := LatestJob(jobs, fingerprint); latest.Some? ==> Newest(jobs, fingerprint, latest.value)
  {
  }

  /** Among jobs of a fingerprint there is a newest one. */
  lemma {:induction false} SomeoneIsNewest(jobs: map<JobId, Job>, ids: set<JobId>, i: JobId) returns (id: JobId)
    requires ids <= jobs.Keys && i in ids
    ensures id in ids && jobs[id].fingerprint == jobs[i].fingerprint
    ensures forall j :: j in ids && j != id && jobs[j].fingerprint == jobs[i].fingerprint ==>
                          jobs[j].created < jobs[id].created || (jobs[j].created == jobs[id].created && j < id)
    ensures ids == jobs.Keys ==> Newest(jobs, jobs[i].fingerprint, id)
    decreases |ids|
  {
    id := i;
    if j :| j in ids - {i} && jobs[j].fingerprint == jobs[i].fingerprint {
      var last := SomeoneIsNewest(jobs, ids - {i}, j);
      if jobs[i].created < jobs[last].created || (jobs[i].created == jobs[last].created && i < last) {
        id := last;
      }
    }
  }

  /** What a newest job allows a new build to start from. */
  ghost predicate Allows(policy: Policy, job: Job, triggers: set<string>, now: Time) {
    || Waits(job)
    || (job.status == Failed && job.attempt < policy.maxAttempts
        && (job.cooldown == None || job.cooldown.value <= now) && exists t :: t in triggers && t !in job.triggers)
  }

  /** A threshold request queues a job exactly when no version is enabled, none of
      the fingerprint waits without an owner, enough cases are eligible, and the
      newest job is either waiting for someone else or a failure with attempts left,
      cooled down, and not seen with all these triggers. The count of attempts goes
      on from that failure. */
  lemma ThresholdQueuesIff(policy: Policy, q: Queue, r: ThresholdRequest)
    requires Inv(policy, q) && r.id !in q.jobs
    ensures
      var n := Next(policy, q, Threshold(r));
      if !r.enabledVersion && r.eligible >= policy.threshold && NoneElseWaits(q.jobs, r.id, r.fingerprint, None)
         && forall i :: Newest(q.jobs, r.fingerprint, i) ==> Allows(policy, q.jobs[i], r.triggers, r.now)
      then
        && r.id in n.jobs && n == q.(jobs := q.jobs[r.id := n.jobs[r.id]])
        && n.jobs[r.id] == Job(r.fingerprint, r.triggers, Queued, None, n.jobs[r.id].attempt, None, None, None, r.now, r.now)
        && (forall i :: Newest(q.jobs, r.fingerprint, i) ==>
                          n.jobs[r.id].attempt == if q.jobs[i].status == Failed then q.jobs[i].attempt else 0)
        && ((forall i :: i in q.jobs ==> q.jobs[i].fingerprint != r.fingerprint) ==> n.jobs[r.id].attempt == 0)
      else n == q
    ensures forall i :: i in q.jobs && q.jobs[i].fingerprint == r.fingerprint ==> exists j :: Newest(q.jobs, r.fingerprint, j)
  {
    forall i | i in q.jobs && q.jobs[i].fingerprint == r.fingerprint
      ensures exists j :: Newest(q.jobs, r.fingerprint, j)
    {
      var j := SomeoneIsNewest(q.jobs, q.jobs.Keys, i);
    }
    var latest := LatestJob(q.jobs, r.fingerprint);
    LatestIsNewest(q.jobs, r.fingerprint);
    forall i: JobId | Newest(q.jobs, r.fingerprint, i)
      ensures latest == Some(i)
    {
      NewestIsLatest(q.jobs, r.fingerprint, i);
    }
    var prior := if latest.Some? then Some(q.jobs[latest.value]) else None;
    StartIff(policy, prior, r.triggers, r.now);
    var attempt := StartAttempt(policy, prior, r.triggers, r.now);
    if attempt.Some? {
      FitsIff(q.jobs, r.id, NewJob(r.fingerprint, r.triggers, None, attempt.value, r.now));
    }
    hide OneActive, StartAttempt, LatestJob, Allows, Newest;
    if HasActiveJob(q.jobs, r.fingerprint, None) {
      var i :| i in q.jobs && q.jobs[i].Active() && q.jobs[i].fingerprint == r.fingerprint && q.jobs[i].owner == None;
      assert Waits(q.jobs[i]) && SameOwner(q.jobs[i].owner, None);
    }
  }

  lemma StartIff(policy: Policy, prior: Option<Job>, triggers: set<string>, now: Time)
    ensures StartAttempt(policy, prior, triggers, now).Some? <==> prior.None? || Allows(policy, prior.value, triggers, now)
    ensures StartAttempt(policy, prior, triggers, now).Some? ==>
              StartAttempt(policy, prior, triggers, now).value
              == if prior.Some? && prior.value.status == Failed then prior.value.attempt else 0
  {
  }

  /** A request of an owner queues a job, without attempts, exactly when no version is
      available and none of the fingerprint waits for that owner. */
  lemma OwnQueuesIff(policy: Policy, q: Queue, r: OwnRequest)
    requires Inv(policy, q) && r.id !in q.jobs
    ensures
      Next(policy, q, Own(r))
      == if !r.available && NoneElseWaits(q.jobs, r.id, r.fingerprint, Some(r.owner))
      then q.(jobs := q.jobs[r.id := Job(r.fingerprint, r.triggers, Queued, Some(r.owner), 0, None, None, None, r.now, r.now)])
      else q
  {
    FitsIff(q.jobs, r.id, NewJob(r.fingerprint, r.triggers, Some(r.owner), 0, r.now));
    hide OneActive;
    if HasActiveJob(q.jobs, r.fingerprint, Some(r.owner)) {
      var i :| i in q.jobs && q.jobs[i].Active() && q.jobs[i].fingerprint == r.fingerprint && q.jobs[i].owner == Some(r.owner);
      assert Waits(q.jobs[i]) && SameOwner(q.jobs[i].owner, Some(r.owner));
    }
  }

  // ----- claiming -----

  /** Queued and cooled down, or running on a lease that has expired. */
  predicate MayBeTaken(job: Job, now: Time) {
    || (job.status == Queued && (job.cooldown == None || job.cooldown.value <= now))
    || (job.status == Running && job.leaseExpires.Some? && job.leaseExpires.value <= now)
  }

  ghost predicate FirstInLine(jobs: map<JobId, Job>, now: Time, id: JobId) {
    && id in jobs && MayBeTaken(jobs[id], now)
    && forall i :: i in jobs && i != id && MayBeTaken(jobs[i], now) ==>
                     jobs[id].created < jobs[i].created || (jobs[id].created == jobs[i].created && id < i)
  }

  ghost predicate RejectedAt(q: Queue, id: JobId, revision: nat) {
    exists d :: d in q.drafts && q.drafts[d].job == id && q.drafts[d].status == Rejected && q.drafts[d].revision == revision
  }

  /** One more than every rejected revision of the job, and no more than that. */
  ghost predicate Follows(q: Queue, id: JobId, revision: nat) {
    && revision >= 1
    && (forall r: nat :: RejectedAt(q, id, r) ==> r < revision)
    && (RejectedAt(q, id, revision - 1) || (revision == 1 && forall r: nat :: !RejectedAt(q, id, r)))
  }

  lemma RevisionFollows(q: Queue, id: JobId)
    ensures Follows(q, id, NextRevision(q, id))
  {
    if d :| IsLatestRejection(q, id, d) {
      ghost var e :| IsLatestRejection(q, id, e) && NextRevision(q, id) == q.drafts[e].revision + 1;
      assert RejectedAt(q, id, q.drafts[e].revision);
      forall r: nat | RejectedAt(q, id, r)
        ensures r < NextRevision(q, id)
      {
        var f :| f in q.drafts && q.drafts[f].job == id && q.drafts[f].status == Rejected && q.drafts[f].revision == r;
        assert IsRejection(q, id, f);
      }
    } else {
      forall r: nat
        ensures !RejectedAt(q, id, r)
      {
        if RejectedAt(q, id, r) {
          var d :| d in q.drafts && q.drafts[d].job == id && q.drafts[d].status == Rejected && q.drafts[d].revision == r;
          var e := LastRejection(q, id, q.drafts.Keys, d);
        }
      }
    }
  }

  lemma {:induction false} LastRejection(q: Queue, id: JobId, ids: set<DraftId>, d: DraftId) returns (e: DraftId)
    requires ids <= q.drafts.Keys && d in ids && IsRejection(q, id, d)
    ensures IsRejection(q, id, e) && forall f :: f in ids && IsRejection(q, id, f) ==> q.drafts[f].revision <= q.drafts[e].revision
    ensures ids == q.drafts.Keys ==> IsLatestRejection(q, id, e)
    decreases |ids|
  {
    var others := ids - {d};
    if f :| f in others && IsRejection(q, id, f) {
      e := LastRejection(q, id, others, f);
      e := if q.drafts[e].revision < q.drafts[d].revision then d else e;
    } else {
      e := d;
    }
  }

  lemma {:induction false} SomeoneIsFirst(jobs: map<JobId, Job>, now: Time, ids: set<JobId>, i: JobId) returns (id: JobId)
    requires ids <= jobs.Keys && i in ids && MayBeTaken(jobs[i], now)
    ensures id in ids && MayBeTaken(jobs[id], now)
    ensures forall j :: j in ids && j != id && MayBeTaken(jobs[j], now) ==>
                          jobs[id].created < jobs[j].created || (jobs[id].created == jobs[j].created && id < j)
    ensures ids == jobs.Keys ==> FirstInLine(jobs, now, id)
    decreases |ids|
  {
    hide MayBeTaken;
    id := i;
    if j :| j in ids - {i} && MayBeTaken(jobs[j], now) {
      var first := SomeoneIsFirst(jobs, now, ids - {i}, j);
      if jobs[first].created < jobs[i].created || (jobs[first].created == jobs[i].created && first < i) {
        id := first;
      }
    }
  }

  /** A claim takes the first job in line, if there is any, for the length of a lease,
      and starts the build of the revision after its last rejected one. */
  lemma ClaimTakesFirst(policy: Policy, q: Queue, worker: Worker, now: Time)
    ensures
      var n := Next(policy, q, Claim(worker, now));
      && (forall id :: FirstInLine(q.jobs, now, id) ==>
                         && n.jobs == q.jobs[id := q.jobs[id].(status := Running, leaseOwner := Some(worker),
                                      leaseExpires := Some(now + policy.lease), updated := now)]
                         && n.drafts == q.drafts
                         && exists revision :: Follows(q, id, revision) && n.builds == q.builds + {(id, revision)})
      && ((forall id :: id in q.jobs ==> !MayBeTaken(q.jobs[id], now)) ==> n == q)
    ensures forall i :: i in q.jobs && MayBeTaken(q.jobs[i], now) ==> exists id :: FirstInLine(q.jobs, now, id)
  {
    hide OldestClaimable, FirstInLine, MayBeTaken, NextRevision, Follows;
    forall i | i in q.jobs && MayBeTaken(q.jobs[i], now)
      ensures exists id :: FirstInLine(q.jobs, now, id)
    {
      var id := SomeoneIsFirst(q.jobs, now, q.jobs.Keys, i);
    }
    forall id: JobId | FirstInLine(q.jobs, now, id)
      ensures OldestClaimable(q.jobs, now) == Some(id)
    {
      FirstIsOldest(q.jobs, now, id);
    }
    OldestMayBeTaken(q.jobs, now);
    if OldestClaimable(q.jobs, now).Some? {
      RevisionFollows(q, OldestClaimable(q.jobs, now).value);
    }
  }

  lemma FirstIsOldest(jobs: map<JobId, Job>, now: Time, id: JobId)
    requires FirstInLine(jobs, now, id)
    ensures OldestClaimable(jobs, now) == Some(id)
  {
    assert IsOldest(jobs, now, id);
  }

  lemma OldestMayBeTaken(jobs: map<JobId, Job>, now: Time)
    ensures var oldest := OldestClaimable(jobs, now);
            oldest.Some? ==> oldest.value in jobs && MayBeTaken(jobs[oldest.value], now)
  {
  }

  // ----- rejecting a draft -----

  /** Rejecting a pending draft hands its job back: for good when the draft is at its
      last refinement, otherwise to the queue, unless another job of its fingerprint
      and owner waits; then nothing happens at all. */
  lemma RequeueOutcome(policy: Policy, q: Queue, d: DraftId, now: Time)
    requires Inv(policy, q)
    ensures
      var n := Next(policy, q, Requeue(d, now));
      if d in q.drafts && q.drafts[d].status == PendingReview && q.drafts[d].job in q.jobs
      then
        var id := q.drafts[d].job;
        var job, drafts := q.jobs[id], q.drafts[d := q.drafts[d].(status := Rejected)];
        n == if q.drafts[d].revision >= policy.maxRefinements
        then q.(drafts := drafts,
                     jobs := q.jobs[id := job.(status := NeedsManual, leaseOwner := None, leaseExpires := None, updated := now)])
        else if NoneElseWaits(q.jobs, id, job.fingerprint, job.owner)
          then q.(drafts := drafts,
                     jobs := q.jobs[id := job.(status := Queued, cooldown := None, leaseOwner := None, leaseExpires := None,
                     updated := now)])
          else q
      else n == q
  {
    if d in q.drafts && q.drafts[d].job in q.jobs {
      var id := q.drafts[d].job;
      FitsIff(q.jobs, id, Requeued(q.jobs[id], now));
    }
    hide OneActive;
  }

  /** The holder of a running job's lease ends it or fails it; nobody else can. */
  lemma HolderOutcome(policy: Policy, q: Queue, id: JobId, worker: Worker, now: Time)
    ensures
      var done, failed := Next(policy, q, Complete(id, worker, now)), Next(policy, q, Step.Fail(id, worker, now));
      if id in q.jobs && q.jobs[id].status == Running && q.jobs[id].leaseOwner == Some(worker)
      then
        var ended := q.jobs[id].(leaseOwner := None, leaseExpires := None, updated := now);
        var attempt := ended.attempt + 1;
        && done == q.(jobs := q.jobs[id := ended.(status := Succeeded)])
        && failed == q.(jobs := q.jobs[id :=
                     if attempt < policy.maxAttempts
                     then ended.(status := Failed, attempt := attempt,
                             cooldown := Some(now + policy.backoffBase * Pow(2, ended.attempt)))
                     else ended.(status := NeedsManual, attempt := attempt, cooldown := None)])
      else done == q && failed == q
  {
  }
}
