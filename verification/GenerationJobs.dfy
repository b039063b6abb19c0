/** The queue of template generation jobs: enqueueing, leased claims, completion,
    failure with backoff, and requeueing a job when one of its drafts is
    rejected. Every operation is one transaction; workers act in any order. */
module GenerationJobs {
  import opened Collections
  import opened Outcomes
  import opened Ownership
  import opened Arithmetic

  /** Job ids are only compared, for equality and to break ties. */
  type JobId = nat
  type DraftId = nat
  type Worker = string
  type Time = int

  datatype Status = Queued | Running | Succeeded | Failed | NeedsManual

  datatype Job = Job(
    fingerprint: string, triggers: set<string>, status: Status, owner: Option<string>, attempt: nat,
    leaseOwner: Option<Worker>, leaseExpires: Option<Time>, cooldown: Option<Time>, created: Time, updated: Time)
  {
    predicate Active() {
      status.Queued? || status.Running?
    }
  }

  datatype DraftStatus = PendingReview | Rejected | Decided

  datatype Draft = Draft(job: JobId, revision: nat, status: DraftStatus)

  /** `builds` are the generations in flight: the job and the revision each will
      submit, fixed when its worker claimed the job. */
  datatype Queue = Queue(jobs: map<JobId, Job>, drafts: map<DraftId, Draft>, builds: set<(JobId, nat)>)

  const EMPTY := Queue(map[], map[], {})

  datatype Policy = Policy(maxAttempts: nat, backoffBase: nat, lease: nat, maxRefinements: nat, threshold: nat)

  // ----- the unique index on active jobs -----

  predicate ActiveClash(a: Job, b: Job) {
    a.Active() && b.Active() && a.fingerprint == b.fingerprint && IndexScope(a.owner) == IndexScope(b.owner)
  }

  predicate OneActive(jobs: map<JobId, Job>) {
    forall i, j :: i in jobs && j in jobs && i != j ==> !ActiveClash(jobs[i], jobs[j])
  }

  predicate HasActiveJob(jobs: map<JobId, Job>, fingerprint: string, owner: Option<string>) {
    exists i :: i in jobs && jobs[i].Active() && jobs[i].fingerprint == fingerprint && jobs[i].owner == owner
  }

  // ----- oldest and latest -----

  predicate Before(jobs: map<JobId, Job>, a: JobId, b: JobId)
    requires a in jobs && b in jobs
  {
    jobs[a].created < jobs[b].created || (jobs[a].created == jobs[b].created && a < b)
  }

  predicate Claimable(job: Job, now: Time) {
    || (job.status.Queued? && (job.cooldown.None? || job.cooldown.value <= now))
    || (job.status.Running? && job.leaseExpires.Some? && job.leaseExpires.value <= now)
  }

  predicate IsOldest(jobs: map<JobId, Job>, now: Time, id: JobId) {
    && id in jobs && Claimable(jobs[id], now)
    && forall i :: i in jobs && Claimable(jobs[i], now) && i != id ==> Before(jobs, id, i)
  }

  ghost function OldestClaimable(jobs: map<JobId, Job>, now: Time): Option<JobId> {
    if id :| IsOldest(jobs, now, id) then Some(id) else None
  }

  predicate IsLatest(jobs: map<JobId, Job>, fingerprint: string, id: JobId) {
    && id in jobs && jobs[id].fingerprint == fingerprint
    && forall i :: i in jobs && jobs[i].fingerprint == fingerprint && i != id ==> Before(jobs, i, id)
  }

  /** The latest job for a fingerprint, whoever owns it. */
  ghost function LatestJob(jobs: map<JobId, Job>, fingerprint: string): Option<JobId> {
    if id :| IsLatest(jobs, fingerprint, id) then Some(id) else None
  }

  // ----- the operations -----

  function NewJob(fingerprint: string, triggers: set<string>, owner: Option<string>, attempt: nat, now: Time): Job {
    Job(fingerprint, triggers, Queued, owner, attempt, None, None, None, now, now)
  }

  /** Insert unless the index on active jobs refuses. */
  function Insert(jobs: map<JobId, Job>, id: JobId, job: Job): Option<map<JobId, Job>> {
    if OneActive(jobs[id := job]) then Some(jobs[id := job]) else None
  }

  /** The attempt count a threshold build starts from, or none when the latest job
      forbids a new one. */
  function StartAttempt(policy: Policy, prior: Option<Job>, triggers: set<string>, now: Time): Option<nat> {
    if prior.None? then Some(0)
    else
      var job := prior.value;
      match job.status
      case Succeeded => None
      case NeedsManual => None
      case Failed =>
        if job.attempt >= policy.maxAttempts then None
        else if job.cooldown.Some? && job.cooldown.value > now then None
        else if triggers <= job.triggers then None
        else Some(job.attempt)
      case _ => Some(0)
  }

  datatype ThresholdRequest = ThresholdRequest(
    fingerprint: string, triggers: set<string>, enabledVersion: bool, eligible: nat, id: JobId, now: Time)

  ghost function EnqueueThreshold(policy: Policy, jobs: map<JobId, Job>, r: ThresholdRequest): Option<map<JobId, Job>> {
    if r.enabledVersion || HasActiveJob(jobs, r.fingerprint, None) || r.eligible < policy.threshold then None
    else
      var latest := LatestJob(jobs, r.fingerprint);
      var attempt := StartAttempt(policy, if latest.Some? then Some(jobs[latest.value]) else None, r.triggers, r.now);
      if attempt.None? then None
      else Insert(jobs, r.id, NewJob(r.fingerprint, r.triggers, None, attempt.value, r.now))
  }

  datatype OwnRequest = OwnRequest(
    fingerprint: string, triggers: set<string>, available: bool, owner: string, id: JobId, now: Time)

  function EnqueueOwn(jobs: map<JobId, Job>, r: OwnRequest): Option<map<JobId, Job>> {
    if r.available || HasActiveJob(jobs, r.fingerprint, Some(r.owner)) then None
    else Insert(jobs, r.id, NewJob(r.fingerprint, r.triggers, Some(r.owner), 0, r.now))
  }

  function Claimed(policy: Policy, job: Job, worker: Worker, now: Time): Job {
    job.(status := Running, leaseOwner := Some(worker), leaseExpires := Some(now + policy.lease), updated := now)
  }

  predicate HoldsLease(jobs: map<JobId, Job>, id: JobId, worker: Worker) {
    id in jobs && jobs[id].status.Running? && jobs[id].leaseOwner == Some(worker)
  }

  function Completed(job: Job, now: Time): Job {
    job.(status := Succeeded, leaseOwner := None, leaseExpires := None, updated := now)
  }

  function Backoff(policy: Policy, attempt: nat): nat
    requires attempt >= 1
  {
    policy.backoffBase * Pow(2, attempt - 1)
  }

  function FailedOnce(policy: Policy, job: Job, now: Time): Job {
    var attempt := job.attempt + 1;
    var last := attempt >= policy.maxAttempts;
    job.(status := if last then NeedsManual else Failed, attempt := attempt,
    cooldown := if last then None else Some(now + Backoff(policy, attempt)),
    leaseOwner := None, leaseExpires := None, updated := now)
  }

  /** Ignores who holds the lease. */
  function Manual(job: Job, now: Time): Job {
    job.(status := NeedsManual, leaseOwner := None, leaseExpires := None, updated := now)
  }

  function Requeued(job: Job, now: Time): Job {
    job.(status := Queued, cooldown := None, leaseOwner := None, leaseExpires := None, updated := now)
  }

  predicate IsRejection(q: Queue, id: JobId, d: DraftId) {
    d in q.drafts && q.drafts[d].status.Rejected? && q.drafts[d].job == id
  }

  predicate IsLatestRejection(q: Queue, id: JobId, d: DraftId) {
    && IsRejection(q, id, d)
    && forall e :: e in q.drafts && IsRejection(q, id, e) ==> q.drafts[e].revision <= q.drafts[d].revision
  }

  /** A build continues from the job's highest rejected revision, or starts at 1. */
  ghost function NextRevision(q: Queue, id: JobId): nat {
    if d :| IsLatestRejection(q, id, d) then q.drafts[d].revision + 1 else 1
  }

  predicate CanRefine(jobs: map<JobId, Job>, drafts: map<DraftId, Draft>, d: DraftId) {
    d in drafts && drafts[d].status.PendingReview? && drafts[d].job in jobs
  }

  predicate Refinable(q: Queue, d: DraftId) {
    CanRefine(q.jobs, q.drafts, d)
  }

  /** The rejected draft's job goes back on the queue, or to manual authoring when
      the draft is at its last refinement; the index may abort the whole step. */
  function RequeueResult(policy: Policy, q: Queue, d: DraftId, now: Time): Option<Queue> {
    if !Refinable(q, d) then None
    else
      var id := q.drafts[d].job;
      var drafts := q.drafts[d := q.drafts[d].(status := Rejected)];
      if q.drafts[d].revision >= policy.maxRefinements then
        Some(q.(jobs := q.jobs[id := Manual(q.jobs[id], now)], drafts := drafts))
      else if OneActive(q.jobs[id := Requeued(q.jobs[id], now)]) then
        Some(q.(jobs := q.jobs[id := Requeued(q.jobs[id], now)], drafts := drafts))
      else None
  }

  datatype Step =
    | Threshold(threshold: ThresholdRequest)
    | Own(own: OwnRequest)
    | Claim(worker: Worker, now: Time)
    | Complete(id: JobId, worker: Worker, now: Time)
    | Fail(id: JobId, worker: Worker, now: Time)
    | MarkManual(id: JobId, now: Time)
    | Submit(draft: DraftId, id: JobId, revision: nat)
    | Requeue(draft: DraftId, now: Time)
    | SetDraft(draft: DraftId, status: DraftStatus)

  predicate Possible(q: Queue, s: Step) {
    match s
    case Threshold(r) => r.id !in q.jobs
    case Own(r) => r.id !in q.jobs
    case Submit(d, id, revision) =>
      && d !in q.drafts && id in q.jobs
      && ((id, revision) in q.builds || exists r :: r in q.drafts && IsRejection(q, id, r) && revision == q.drafts[r].revision + 1)
    case SetDraft(d, _) => d in q.drafts
    case _ => true
  }

  function WithJobs(q: Queue, jobs: Option<map<JobId, Job>>): Queue {
    if jobs.Some? then q.(jobs := jobs.value) else q
  }

  ghost function Next(policy: Policy, q: Queue, s: Step): Queue
    requires Possible(q, s)
  {
    match s
    case Threshold(r) => WithJobs(q, EnqueueThreshold(policy, q.jobs, r))
    case Own(r) => WithJobs(q, EnqueueOwn(q.jobs, r))
    case Claim(worker, now) =>
      var id := OldestClaimable(q.jobs, now);
      if id.None? then q
      else
        q.(jobs := q.jobs[id.value := Claimed(policy, q.jobs[id.value], worker, now)],
        builds := q.builds + {(id.value, NextRevision(q, id.value))})
    case Complete(id, worker, now) =>
      if HoldsLease(q.jobs, id, worker) then q.(jobs := q.jobs[id := Completed(q.jobs[id], now)]) else q
    case Fail(id, worker, now) =>
      if HoldsLease(q.jobs, id, worker) then q.(jobs := q.jobs[id := FailedOnce(policy, q.jobs[id], now)]) else q
    case MarkManual(id, now) =>
      if id in q.jobs then q.(jobs := q.jobs[id := Manual(q.jobs[id], now)]) else q
    case Submit(d, id, revision) => q.(drafts := q.drafts[d := Draft(id, revision, PendingReview)])
    case Requeue(d, now) =>
      var r := RequeueResult(policy, q, d, now);
      if r.Some? then r.value else q
    case SetDraft(d, status) => q.(drafts := q.drafts[d := q.drafts[d].(status := status)])
  }

  // ----- what every reachable queue satisfies -----

  /** A lease exists exactly while the job runs; only a failed job cools down, for
      the backoff of its attempt, and it has attempts left. */
  ghost predicate WellFormed(policy: Policy, job: Job) {
    && (job.status.Running? <==> job.leaseOwner.Some?)
    && (job.status.Running? <==> job.leaseExpires.Some?)
    && (job.Active() ==> job.cooldown.None?)
    && (job.status.Failed? ==>
          && 1 <= job.attempt < policy.maxAttempts
          && job.cooldown == Some(job.updated + Backoff(policy, job.attempt)))
  }

  ghost predicate Inv(policy: Policy, q: Queue) {
    OneActive(q.jobs) && forall i :: i in q.jobs ==> WellFormed(policy, q.jobs[i])
  }

  /** Replacing a job by one that is active only if it was keeps the index. */
  lemma ReplaceKeepsIndex(jobs: map<JobId, Job>, id: JobId, job: Job)
    requires OneActive(jobs) && id in jobs
    requires job.Active() ==> jobs[id].Active()
    requires job.fingerprint == jobs[id].fingerprint && job.owner == jobs[id].owner
    ensures OneActive(jobs[id := job])
  {
  }

  lemma JobStepKeeps(policy: Policy, q: Queue, id: JobId, job: Job)
    requires Inv(policy, q) && id in q.jobs && WellFormed(policy, job)
    requires job.Active() ==> q.jobs[id].Active()
    requires job.fingerprint == q.jobs[id].fingerprint && job.owner == q.jobs[id].owner
    ensures forall n: Queue :: n.jobs == q.jobs[id := job] ==> Inv(policy, n)
  {
    hide OneActive, WellFormed;
    ReplaceKeepsIndex(q.jobs, id, job);
  }

  lemma StepKeeps(policy: Policy, q: Queue, s: Step)
    requires Inv(policy, q) && Possible(q, s)
    ensures Inv(policy, Next(policy, q, s))
  {
    hide OneActive;
    match s {
      case Threshold(_) =>
      case Own(_) =>
      case Claim(worker, now) =>
        var id := OldestClaimable(q.jobs, now);
        if id.Some? {
          JobStepKeeps(policy, q, id.value, Claimed(policy, q.jobs[id.value], worker, now));
        }
      case Complete(id, worker, now) =>
        if HoldsLease(q.jobs, id, worker) {
          JobStepKeeps(policy, q, id, Completed(q.jobs[id], now));
        }
      case Fail(id, worker, now) =>
        if HoldsLease(q.jobs, id, worker) {
          JobStepKeeps(policy, q, id, FailedOnce(policy, q.jobs[id], now));
        }
      case MarkManual(id, now) =>
        if id in q.jobs {
          JobStepKeeps(policy, q, id, Manual(q.jobs[id], now));
        }
      case Requeue(d, now) =>
        if Refinable(q, d) {
          JobStepKeeps(policy, q, q.drafts[d].job, Manual(q.jobs[q.drafts[d].job], now));
        }
      case _ =>
    }
  }

  ghost predicate Run(policy: Policy, qs: seq<Queue>, steps: seq<Step>) {
    && |qs| == |steps| + 1 && qs[0] == EMPTY
    && forall k :: 0 <= k < |steps| ==> Possible(qs[k], steps[k]) && qs[k + 1] == Next(policy, qs[k], steps[k])
  }

  /** In every reachable queue at most one job per fingerprint and owner is active,
      and a failed job has attempts left and the cooldown of its attempt. */
  lemma {:induction false} RunKeeps(policy: Policy, qs: seq<Queue>, steps: seq<Step>, k: nat)
    requires Run(policy, qs, steps) && k < |qs|
    ensures Inv(policy, qs[k])
  {
    hide Next, Possible, OneActive, WellFormed;
    if k == 0 {
      assert OneActive(EMPTY.jobs) by {
        EmptyIsFine();
      }
    } else {
      RunKeeps(policy, qs, steps, k - 1);
      StepKeeps(policy, qs[k - 1], steps[k - 1]);
    }
  }

  lemma EmptyIsFine()
    ensures OneActive(EMPTY.jobs)
  {
  }

  // ----- leases -----

  /** A worker that does not hold a job's lease gets it only by claiming. */
  lemma LeaseStaysLost(policy: Policy, q: Queue, s: Step, id: JobId, worker: Worker)
    requires Possible(q, s) && id in q.jobs && q.jobs[id].leaseOwner != Some(worker)
    requires s.Claim? ==> s.worker != worker
    ensures id in Next(policy, q, s).jobs && Next(policy, q, s).jobs[id].leaseOwner != Some(worker)
  {
    hide OneActive, StartAttempt, HasActiveJob;
  }

  /** Once another worker has re-claimed a job, the previous one can neither
      complete nor fail it, however long the run goes on, until it claims again. */
  lemma {:induction false} LostLeaseIsPowerless(policy: Policy, qs: seq<Queue>, steps: seq<Step>, i: nat, j: nat,
                                                id: JobId, worker: Worker, now: Time)
    requires Run(policy, qs, steps) && i <= j < |qs|
    requires id in qs[i].jobs && qs[i].jobs[id].leaseOwner != Some(worker)
    requires forall k :: i <= k < j && steps[k].Claim? ==> steps[k].worker != worker
    ensures id in qs[j].jobs && qs[j].jobs[id].leaseOwner != Some(worker)
    ensures Next(policy, qs[j], Complete(id, worker, now)) == qs[j]
    ensures Next(policy, qs[j], Fail(id, worker, now)) == qs[j]
    decreases j - i
  {
    if i < j {
      LostLeaseIsPowerless(policy, qs, steps, i, j - 1, id, worker, now);
      LeaseStaysLost(policy, qs[j - 1], steps[j - 1], id, worker);
    }
  }

  /** The exception: giving up on a job takes it from whoever runs it now. */
  lemma GivingUpIgnoresTheLease(policy: Policy, q: Queue, id: JobId, holder: Worker, now: Time)
    requires HoldsLease(q.jobs, id, holder)
    ensures
      var n := Next(policy, q, MarkManual(id, now));
      !HoldsLease(n.jobs, id, holder) && n.jobs[id].status.NeedsManual? && Next(policy, n, Complete(id, holder, now)) == n
  {
  }

  // ----- the attempt count -----

  /** Attempts within the maximum, and below it for every job that may still fail. */
  ghost predicate Bounded(policy: Policy, q: Queue) {
    forall i :: i in q.jobs ==>
                  && q.jobs[i].attempt <= policy.maxAttempts
                  && (q.jobs[i].Active() ==> q.jobs[i].attempt < policy.maxAttempts)
  }

  /** Requeueing this draft revives no job that has used up its attempts. */
  ghost predicate RevivesOnlyUnexhausted(policy: Policy, q: Queue, d: DraftId) {
    Refinable(q, d) && q.drafts[d].revision < policy.maxRefinements
    && OneActive(q.jobs[q.drafts[d].job := Requeued(q.jobs[q.drafts[d].job], 0)]) ==>
      q.jobs[q.drafts[d].job].attempt < policy.maxAttempts
  }

  lemma IndexIgnoresTime(jobs: map<JobId, Job>, id: JobId, a: Job, b: Job)
    requires a == b.(updated := a.updated)
    ensures OneActive(jobs[id := a]) <==> OneActive(jobs[id := b])
  {
    var x, y := jobs[id := a], jobs[id := b];
    assert forall i, j :: i in x && j in x ==> ActiveClash(x[i], x[j]) == ActiveClash(y[i], y[j]);
    if OneActive(x) {
      forall i, j | i in y && j in y && i != j
        ensures !ActiveClash(y[i], y[j])
      {
        assert !ActiveClash(x[i], x[j]);
      }
    }
    if OneActive(y) {
      forall i, j | i in x && j in x && i != j
        ensures !ActiveClash(x[i], x[j])
      {
        assert !ActiveClash(y[i], y[j]);
      }
    }
  }

  /** Every other step keeps the bound. */
  lemma OtherStepsKeepBound(policy: Policy, q: Queue, s: Step)
    requires policy.maxAttempts >= 1 && Bounded(policy, q) && Possible(q, s) && !s.Requeue?
    ensures Bounded(policy, Next(policy, q, s))
  {
    hide OneActive, HasActiveJob, Before, Backoff;
  }

  /** A requeue keeps the bound exactly when it revives no exhausted job. */
  lemma RequeueKeepsBoundIff(policy: Policy, q: Queue, d: DraftId, now: Time)
    requires Bounded(policy, q)
    ensures Bounded(policy, Next(policy, q, Requeue(d, now))) <==> RevivesOnlyUnexhausted(policy, q, d)
  {
    if Refinable(q, d) {
      var job := q.jobs[q.drafts[d].job];
      IndexIgnoresTime(q.jobs, q.drafts[d].job, Requeued(job, now), Requeued(job, 0));
      hide OneActive;
      assert q.drafts[d].job in Next(policy, q, Requeue(d, now)).jobs;
    }
  }

  /** Possible steps in a row, from any queue. */
  ghost predicate Goes(policy: Policy, qs: seq<Queue>, steps: seq<Step>) {
    && |qs| == |steps| + 1
    && forall k :: 0 <= k < |steps| ==> Possible(qs[k], steps[k]) && qs[k + 1] == Next(policy, qs[k], steps[k])
  }

  ghost predicate RequeuesGuarded(policy: Policy, qs: seq<Queue>, steps: seq<Step>)
    requires |qs| == |steps| + 1
  {
    forall i :: 0 <= i < |steps| && steps[i].Requeue? ==> RevivesOnlyUnexhausted(policy, qs[i], steps[i].draft)
  }

  lemma {:induction false} GoesBounded(policy: Policy, qs: seq<Queue>, steps: seq<Step>, k: nat)
    requires policy.maxAttempts >= 1 && Goes(policy, qs, steps) && k < |qs| && Bounded(policy, qs[0])
    requires RequeuesGuarded(policy, qs, steps)
    ensures Bounded(policy, qs[k])
  {
    hide Next, Possible, RevivesOnlyUnexhausted;
    if k > 0 {
      GoesBounded(policy, qs, steps, k - 1);
      if steps[k - 1].Requeue? {
        assert steps[k - 1] == Requeue(steps[k - 1].draft, steps[k - 1].now);
        RequeueKeepsBoundIff(policy, qs[k - 1], steps[k - 1].draft, steps[k - 1].now);
      } else {
        OtherStepsKeepBound(policy, qs[k - 1], steps[k - 1]);
      }
    }
  }

  /** Over any run whose requeues revive no exhausted job, no attempt count ever
      exceeds the maximum. */
  lemma RunBounded(policy: Policy, qs: seq<Queue>, steps: seq<Step>, k: nat)
    requires policy.maxAttempts >= 1 && Run(policy, qs, steps) && k < |qs| && RequeuesGuarded(policy, qs, steps)
    ensures Bounded(policy, qs[k])
  {
    hide Next, Possible, RevivesOnlyUnexhausted;
    GoesBounded(policy, qs, steps, k);
  }

  // ----- one revived job is enough -----

  ghost predicate WithinMaximum(policy: Policy, q: Queue) {
    forall i :: i in q.jobs ==> q.jobs[i].attempt <= policy.maxAttempts
  }

  lemma GoesOn(policy: Policy, qs: seq<Queue>, steps: seq<Step>, s: Step) returns (more: seq<Queue>, added: seq<Step>)
    requires Goes(policy, qs, steps) && Possible(qs[|steps|], s)
    ensures more == qs + [Next(policy, qs[|steps|], s)] && added == steps + [s] && Goes(policy, more, added)
    ensures RequeuesGuarded(policy, qs, steps) && !s.Requeue? ==> RequeuesGuarded(policy, more, added)
  {
    hide Next, Possible, RevivesOnlyUnexhausted;
    more, added := qs + [Next(policy, qs[|steps|], s)], steps + [s];
    forall k | 0 <= k < |added|
      ensures Possible(more[k], added[k]) && more[k + 1] == Next(policy, more[k], added[k])
    {
      assert k < |steps| ==> added[k] == steps[k] && more[k] == qs[k] && more[k + 1] == qs[k + 1];
    }
    if RequeuesGuarded(policy, qs, steps) && !s.Requeue? {
      forall i | 0 <= i < |added| && added[i].Requeue?
        ensures RevivesOnlyUnexhausted(policy, more[i], added[i].draft)
      {
        assert added[i] == steps[i] && more[i] == qs[i];
      }
    }
  }

  /** Giving up on these jobs, one after the other. */
  lemma {:induction false} GiveUpOn(policy: Policy, q: Queue, ids: set<JobId>)
    returns (qs: seq<Queue>, steps: seq<Step>)
    requires ids <= q.jobs.Keys
    ensures Goes(policy, qs, steps) && qs[0] == q && RequeuesGuarded(policy, qs, steps)
    ensures
      var n := qs[|steps|];
      && n.jobs.Keys == q.jobs.Keys
      && (forall i :: i in ids ==> n.jobs[i].status.NeedsManual?)
      && forall i :: i in q.jobs && i !in ids ==> n.jobs[i] == q.jobs[i]
    decreases |ids|
  {
    if ids == {} {
      qs, steps := [q], [];
    } else {
      var i := SomeMember(ids);
      qs, steps := GiveUpOn(policy, q, ids - {i});
      hide RequeuesGuarded, Goes;
      qs, steps := GoesOn(policy, qs, steps, MarkManual(i, 0));
    }
  }

  lemma OnlyClaimable(jobs: map<JobId, Job>, id: JobId, now: Time)
    requires id in jobs && Claimable(jobs[id], now)
    requires forall i :: i in jobs && i != id ==> jobs[i].status.NeedsManual?
    ensures OldestClaimable(jobs, now) == Some(id)
  {
    assert IsOldest(jobs, now, id);
  }

  lemma ClaimOnly(policy: Policy, q: Queue, id: JobId, worker: Worker, now: Time)
    requires id in q.jobs && Claimable(q.jobs[id], now)
    requires forall i :: i in q.jobs && i != id ==> q.jobs[i].status.NeedsManual?
    ensures Next(policy, q, Claim(worker, now))
         == q.(jobs := q.jobs[id := Claimed(policy, q.jobs[id], worker, now)],
            builds := q.builds + {(id, NextRevision(q, id))})
  {
    OnlyClaimable(q.jobs, id, now);
  }

  /** From a queue that holds a queued job with its attempts used up, giving up on
      the others, one claim and one failure pass the maximum. */
  lemma QueuedExceeds(policy: Policy, q: Queue, id: JobId) returns (qs: seq<Queue>, steps: seq<Step>)
    requires id in q.jobs && q.jobs[id].status.Queued? && q.jobs[id].cooldown.None?
    requires q.jobs[id].attempt >= policy.maxAttempts
    ensures Goes(policy, qs, steps) && qs[0] == q && RequeuesGuarded(policy, qs, steps)
    ensures !WithinMaximum(policy, qs[|steps|])
  {
    qs, steps := GiveUpOn(policy, q, q.jobs.Keys - {id});
    hide RequeuesGuarded, Goes, OldestClaimable, NextRevision;
    var quiet := qs[|steps|];
    assert quiet.jobs[id] == q.jobs[id];
    ClaimOnly(policy, quiet, id, "worker", 0);
    qs, steps := GoesOn(policy, qs, steps, Claim("worker", 0));
    assert HoldsLease(qs[|steps|].jobs, id, "worker");
    qs, steps := GoesOn(policy, qs, steps, Fail(id, "worker", 0));
    assert qs[|steps|].jobs[id].attempt == q.jobs[id].attempt + 1;
  }

  lemma RevivedIsQueued(policy: Policy, q: Queue, d: DraftId, now: Time)
    requires Bounded(policy, q) && !RevivesOnlyUnexhausted(policy, q, d)
    ensures
      var id, n := q.drafts[d].job, Next(policy, q, Requeue(d, now));
      && id in n.jobs && n.jobs[id].status.Queued? && n.jobs[id].cooldown.None?
      && n.jobs[id].attempt >= policy.maxAttempts
  {
    var job := q.jobs[q.drafts[d].job];
    IndexIgnoresTime(q.jobs, q.drafts[d].job, Requeued(job, now), Requeued(job, 0));
    hide OneActive;
  }

  /** A requeue leaves every continuation within the maximum, as long as later
      requeues revive no exhausted job, exactly when it revives none itself. */
  lemma RequeueHarmlessIff(policy: Policy, q: Queue, d: DraftId, now: Time)
    requires policy.maxAttempts >= 1 && Bounded(policy, q)
    ensures
      RevivesOnlyUnexhausted(policy, q, d) <==>
      forall qs, steps ::
        Goes(policy, qs, steps) && qs[0] == Next(policy, q, Requeue(d, now)) && RequeuesGuarded(policy, qs, steps) ==>
          WithinMaximum(policy, qs[|steps|])
  {
    RequeueKeepsBoundIff(policy, q, d, now);
    var n := Next(policy, q, Requeue(d, now));
    hide Next, Goes, RequeuesGuarded, RevivesOnlyUnexhausted;
    if RevivesOnlyUnexhausted(policy, q, d) {
      forall qs, steps | Goes(policy, qs, steps) && qs[0] == n && RequeuesGuarded(policy, qs, steps)
        ensures WithinMaximum(policy, qs[|steps|])
      {
        GoesBounded(policy, qs, steps, |steps|);
      }
    } else {
      RevivedIsQueued(policy, q, d, now);
      var qs, steps := QueuedExceeds(policy, n, q.drafts[d].job);
    }
  }

  // ----- exceeding the maximum -----

  /** Workers' names are process identities: one per process, no two alike. */
  function WorkerName(k: nat): (w: Worker)
    ensures |w| == k
  {
    seq(k, _ => 'w')
  }

  /** Who is building after this step: claiming starts a build, completing or
      failing ends it, whether or not it still counts. */
  function BusyAfter(busy: set<Worker>, s: Step): set<Worker> {
    match s
    case Claim(worker, _) => busy + {worker}
    case Complete(_, worker, _) => busy - {worker}
    case Fail(_, worker, _) => busy - {worker}
    case _ => busy
  }

  function Busy(busy: set<Worker>, steps: seq<Step>): set<Worker>
    decreases |steps|
  {
    if steps == [] then busy else Busy(BusyAfter(busy, steps[0]), steps[1..])
  }

  predicate MayClaim(busy: set<Worker>, s: Step) {
    s.Claim? ==> s.worker !in busy
  }

  /** No worker claims a job before it has ended its previous build. */
  predicate OneAtATime(busy: set<Worker>, steps: seq<Step>)
    decreases |steps|
  {
    steps == [] ||
    (MayClaim(busy, steps[0]) && OneAtATime(BusyAfter(busy, steps[0]), steps[1..]))
  }

  lemma {:induction false} OneAtATimeConcat(busy: set<Worker>, a: seq<Step>, b: seq<Step>)
    ensures Busy(busy, a + b) == Busy(Busy(busy, a), b)
    ensures OneAtATime(busy, a + b) <==> OneAtATime(busy, a) && OneAtATime(Busy(busy, a), b)
    decreases |a|
  {
    if a == [] {
      assert a + b == b;
    } else {
      assert (a + b)[0] == a[0] && (a + b)[1..] == a[1..] + b;
      OneAtATimeConcat(BusyAfter(busy, a[0]), a[1..], b);
    }
  }

  lemma TwoAtATime(busy: set<Worker>, a: Step, b: Step)
    ensures Busy(busy, [a, b]) == BusyAfter(BusyAfter(busy, a), b)
    ensures OneAtATime(busy, [a, b]) <==> MayClaim(busy, a) && MayClaim(BusyAfter(busy, a), b)
  {
    var last: seq<Step> := [b];
    assert [a, b][1..] == last && last[1..] == [];
    var after := BusyAfter(busy, a);
    assert Busy(after, last) == BusyAfter(after, b);
    assert OneAtATime(after, last) <==> MayClaim(after, b);
  }

  lemma ThreeAtATime(busy: set<Worker>, a: Step, b: Step, c: Step)
    ensures Busy(busy, [a, b, c]) == BusyAfter(BusyAfter(BusyAfter(busy, a), b), c)
    ensures
      OneAtATime(busy, [a, b, c]) <==>
      MayClaim(busy, a) && MayClaim(BusyAfter(busy, a), b) && MayClaim(BusyAfter(BusyAfter(busy, a), b), c)
  {
    assert [a, b, c][1..] == [b, c];
    TwoAtATime(BusyAfter(busy, a), b, c);
  }

  /** One running job at this attempt, and pending first drafts from `level` on. */
  ghost predicate AtLevel(q: Queue, level: nat, stock: nat, holder: Worker) {
    && q.jobs.Keys == {0} && HoldsLease(q.jobs, 0, holder) && q.jobs[0].attempt == level
    && forall d :: level <= d < stock ==> d in q.drafts && q.drafts[d] == Draft(0, 1, PendingReview)
  }

  lemma ClaimSole(policy: Policy, q: Queue, worker: Worker, now: Time)
    requires q.jobs.Keys == {0} && Claimable(q.jobs[0], now)
    ensures Next(policy, q, Claim(worker, now))
         == q.(jobs := q.jobs[0 := Claimed(policy, q.jobs[0], worker, now)], builds := q.builds + {(0, NextRevision(q, 0))})
  {
    OnlyClaimable(q.jobs, 0, now);
  }

  /** One running job that keeps being claimed after its lease expires, each time
      by another worker, while every earlier worker still submits its first draft. */
  ghost predicate Stocked(q: Queue, stock: nat) {
    && AtLevel(q, 0, stock, WorkerName(stock)) && (0, 1) in q.builds && q.jobs[0].leaseExpires.Some?
    && forall d :: d in q.drafts ==> d < stock && q.drafts[d].status.PendingReview?
  }

  function StockSteps(stock: nat, now: Time): seq<Step> {
    [Claim(WorkerName(stock + 1), now), Submit(stock, 0, 1), Complete(0, WorkerName(stock), now)]
  }

  /** Another worker claims the expired job; the slow one submits the draft it
      built, and its completion has no effect. */
  lemma StockOne(policy: Policy, q: Queue, stock: nat) returns (qs: seq<Queue>, steps: seq<Step>)
    requires Stocked(q, stock)
    ensures Goes(policy, qs, steps) && qs[0] == q && Stocked(qs[|steps|], stock + 1)
    ensures OneAtATime({WorkerName(stock)}, steps) && Busy({WorkerName(stock)}, steps) == {WorkerName(stock + 1)}
  {
    hide OldestClaimable, NextRevision;
    var now := q.jobs[0].leaseExpires.value;
    steps := StockSteps(stock, now);
    ClaimSole(policy, q, WorkerName(stock + 1), now);
    var q1 := Next(policy, q, steps[0]);
    var q2 := Next(policy, q1, steps[1]);
    assert WorkerName(stock) != WorkerName(stock + 1);
    assert Next(policy, q2, steps[2]) == q2;
    qs := [q, q1, q2, q2];
    StockOneAtATime(stock, now);
  }

  lemma StockOneAtATime(stock: nat, now: Time)
    ensures OneAtATime({WorkerName(stock)}, StockSteps(stock, now))
    ensures Busy({WorkerName(stock)}, StockSteps(stock, now)) == {WorkerName(stock + 1)}
  {
    var steps := StockSteps(stock, now);
    var slow, next := WorkerName(stock), WorkerName(stock + 1);
    assert slow != next;
    ThreeAtATime({slow}, steps[0], steps[1], steps[2]);
    assert {slow} + {next} - {slow} == {next};
  }

  function RoundSteps(level: nat, holder: Worker): seq<Step> {
    [Fail(0, holder, 0), Requeue(level, 0), Claim(holder, 0)]
  }

  /** The worker fails, a pending first draft is rejected and revives the job, and
      the worker, idle again, claims it. */
  lemma PlayRound(policy: Policy, q: Queue, level: nat, stock: nat, holder: Worker)
    returns (qs: seq<Queue>, steps: seq<Step>)
    requires policy.maxRefinements > 1 && AtLevel(q, level, stock, holder) && level < stock
    ensures Goes(policy, qs, steps) && qs[0] == q && AtLevel(qs[|steps|], level + 1, stock, holder)
    ensures OneAtATime({holder}, steps) && Busy({holder}, steps) == {holder}
  {
    hide OldestClaimable, Backoff, NextRevision;
    steps := RoundSteps(level, holder);
    var q1 := Next(policy, q, steps[0]);
    var q2 := Next(policy, q1, steps[1]);
    ClaimSole(policy, q2, holder, 0);
    var q3 := Next(policy, q2, steps[2]);
    qs := [q, q1, q2, q3];
    RoundOneAtATime(level, holder);
  }

  lemma RoundOneAtATime(level: nat, holder: Worker)
    ensures OneAtATime({holder}, RoundSteps(level, holder)) && Busy({holder}, RoundSteps(level, holder)) == {holder}
  {
    var steps := RoundSteps(level, holder);
    ThreeAtATime({holder}, steps[0], steps[1], steps[2]);
    assert {holder} - {holder} + {holder} == {holder};
  }

  lemma RunExtends(policy: Policy, qs: seq<Queue>, steps: seq<Step>, more: seq<Queue>, added: seq<Step>)
    requires Run(policy, qs, steps) && Goes(policy, more, added) && more[0] == qs[|qs| - 1]
    ensures Run(policy, qs + more[1..], steps + added)
    ensures (qs + more[1..])[|qs| + |added| - 1] == more[|added|]
  {
    hide Next, Possible;
    var all, acts := qs + more[1..], steps + added;
    forall k | 0 <= k < |acts|
      ensures Possible(all[k], acts[k]) && all[k + 1] == Next(policy, all[k], acts[k])
    {
      if k >= |steps| {
        assert all[k] == more[k - |steps|] && all[k + 1] == more[k - |steps| + 1] && acts[k] == added[k - |steps|];
      }
    }
  }

  lemma {:induction false} Stock(policy: Policy, stock: nat) returns (qs: seq<Queue>, steps: seq<Step>)
    ensures Run(policy, qs, steps) && Stocked(qs[|qs| - 1], stock)
    ensures OneAtATime({}, steps) && Busy({}, steps) == {WorkerName(stock)}
  {
    hide Next, Possible, Stocked, Busy, OneAtATime;
    if stock == 0 {
      qs, steps := FirstRequest(policy);
    } else {
      qs, steps := Stock(policy, stock - 1);
      var more, added := StockOne(policy, qs[|qs| - 1], stock - 1);
      RunExtends(policy, qs, steps, more, added);
      OneAtATimeConcat({}, steps, added);
      qs, steps := qs + more[1..], steps + added;
    }
  }

  lemma FirstRequest(policy: Policy) returns (qs: seq<Queue>, steps: seq<Step>)
    ensures Run(policy, qs, steps) && Stocked(qs[|qs| - 1], 0)
    ensures OneAtATime({}, steps) && Busy({}, steps) == {WorkerName(0)}
  {
    hide OldestClaimable;
    var request := OwnRequest("shape", {}, false, "teacher", 0, 0);
    assert OneActive(map[0 := NewJob("shape", {}, Some("teacher"), 0, 0)]);
    var q1 := Next(policy, EMPTY, Own(request));
    ClaimSole(policy, q1, WorkerName(0), 0);
    var q2 := Next(policy, q1, Claim(WorkerName(0), 0));
    qs, steps := [EMPTY, q1, q2], [Own(request), Claim(WorkerName(0), 0)];
    TwoAtATime({}, steps[0], steps[1]);
    assert {} + {WorkerName(0)} == {WorkerName(0)};
  }

  lemma {:induction false} Climb(policy: Policy, level: nat, stock: nat) returns (qs: seq<Queue>, steps: seq<Step>)
    requires policy.maxRefinements > 1 && level <= stock
    ensures Run(policy, qs, steps) && AtLevel(qs[|qs| - 1], level, stock, WorkerName(stock))
    ensures OneAtATime({}, steps) && Busy({}, steps) == {WorkerName(stock)}
  {
    hide Next, Possible, AtLevel, Busy, OneAtATime;
    if level == 0 {
      qs, steps := Stock(policy, stock);
      assert AtLevel(qs[|qs| - 1], 0, stock, WorkerName(stock)) by {
        StockedAtZero(qs[|qs| - 1], stock);
      }
    } else {
      qs, steps := Climb(policy, level - 1, stock);
      var more, added := PlayRound(policy, qs[|qs| - 1], level - 1, stock, WorkerName(stock));
      RunExtends(policy, qs, steps, more, added);
      OneAtATimeConcat({}, steps, added);
      qs, steps := qs + more[1..], steps + added;
    }
  }

  lemma StockedAtZero(q: Queue, stock: nat)
    requires Stocked(q, stock)
    ensures AtLevel(q, 0, stock, WorkerName(stock))
  {
  }

  /** Whatever the configured maximum, some run takes a job past it, in which no
      worker claims before it has ended its previous build. */
  lemma AttemptsCanExceedMaximum(policy: Policy) returns (qs: seq<Queue>, steps: seq<Step>)
    requires policy.maxRefinements > 1
    ensures Run(policy, qs, steps) && OneAtATime({}, steps)
    ensures 0 in qs[|qs| - 1].jobs && qs[|qs| - 1].jobs[0].attempt > policy.maxAttempts
  {
    qs, steps := Climb(policy, policy.maxAttempts + 1, policy.maxAttempts + 1);
  }

  // ----- the queue object -----

  class JobQueue {
    const policy: Policy
    var jobs: map<JobId, Job>
    var drafts: map<DraftId, Draft>
    ghost var builds: set<(JobId, nat)>

    ghost function Value(): Queue
      reads this
    {
      Queue(jobs, drafts, builds)
    }

    constructor (policy: Policy)
      ensures Value() == EMPTY && this.policy == policy
    {
      this.policy := policy;
      jobs, drafts := map[], map[];
      builds := {};
    }

    method FindLatest(fingerprint: string) returns (latest: Option<JobId>)
      ensures latest == LatestJob(jobs, fingerprint)
    {
      latest := None;
      var rest := jobs.Keys;
      while rest != {}
        invariant rest <= jobs.Keys
        invariant latest.None? ==> forall i :: i in jobs && i !in rest ==> jobs[i].fingerprint != fingerprint
        invariant latest.Some? ==>
                    && latest.value in jobs && jobs[latest.value].fingerprint == fingerprint
                    && forall i :: i in jobs && i !in rest && jobs[i].fingerprint == fingerprint && i != latest.value ==>
                                     Before(jobs, i, latest.value)
      {
        ghost var member := SomeMember(rest);
        var i :| i in rest;
        rest := rest - {i};
        if jobs[i].fingerprint == fingerprint && (latest.None? || Before(jobs, latest.value, i)) {
          latest := Some(i);
        }
      }
      if latest.Some? {
        assert IsLatest(jobs, fingerprint, latest.value);
      }
    }

    method FindClaimable(now: Time) returns (oldest: Option<JobId>)
      ensures oldest == OldestClaimable(jobs, now)
      ensures oldest.None? ==> forall i :: i in jobs ==> !Claimable(jobs[i], now)
    {
      oldest := None;
      var rest := jobs.Keys;
      while rest != {}
        invariant rest <= jobs.Keys
        invariant oldest.None? ==> forall i :: i in jobs && i !in rest ==> !Claimable(jobs[i], now)
        invariant oldest.Some? ==>
                    && oldest.value in jobs && Claimable(jobs[oldest.value], now)
                    && forall i :: i in jobs && i !in rest && Claimable(jobs[i], now) && i != oldest.value ==>
                                     Before(jobs, oldest.value, i)
      {
        ghost var member := SomeMember(rest);
        var i :| i in rest;
        rest := rest - {i};
        if Claimable(jobs[i], now) && (oldest.None? || Before(jobs, i, oldest.value)) {
          oldest := Some(i);
        }
      }
      if oldest.Some? {
        assert IsOldest(jobs, now, oldest.value);
      }
    }

    method EvaluateAndEnqueue(r: ThresholdRequest) returns (added: Option<JobId>)
      requires r.id !in jobs
      modifies this`jobs
      ensures Value() == Next(policy, old(Value()), Threshold(r))
      ensures added == if EnqueueThreshold(policy, old(jobs), r).Some? then Some(r.id) else None
    {
      hide OneActive, HasActiveJob;
      if r.enabledVersion {
        return None;
      }
      if HasActiveJob(jobs, r.fingerprint, None) {
        return None;
      }
      if r.eligible < policy.threshold {
        return None;
      }
      var latest := FindLatest(r.fingerprint);
      var attempt := 0;
      if latest.Some? {
        var prior := jobs[latest.value];
        if prior.status.Succeeded? || prior.status.NeedsManual? {
          return None;
        }
        if prior.status.Failed? {
          if prior.attempt >= policy.maxAttempts {
            return None;
          }
          if prior.cooldown.Some? && prior.cooldown.value > r.now {
            return None;
          }
          if r.triggers <= prior.triggers {
            return None;
          }
          attempt := prior.attempt;
        }
      }
      added := InsertJob(r.id, NewJob(r.fingerprint, r.triggers, None, attempt, r.now));
    }

    method EnqueueOnDemand(r: OwnRequest) returns (added: Option<JobId>)
      requires r.id !in jobs
      modifies this`jobs
      ensures Value() == Next(policy, old(Value()), Own(r))
      ensures added == if EnqueueOwn(old(jobs), r).Some? then Some(r.id) else None
    {
      hide OneActive, HasActiveJob;
      if r.available {
        return None;
      }
      if HasActiveJob(jobs, r.fingerprint, Some(r.owner)) {
        return None;
      }
      added := InsertJob(r.id, NewJob(r.fingerprint, r.triggers, Some(r.owner), 0, r.now));
    }

    /** Insert, rolling back when the unique index refuses the row. */
    method InsertJob(id: JobId, job: Job) returns (added: Option<JobId>)
      modifies this`jobs
      ensures jobs == var r := Insert(old(jobs), id, job); if r.Some? then r.value else old(jobs)
      ensures added == if Insert(old(jobs), id, job).Some? then Some(id) else None
    {
      hide OneActive;
      var before := jobs;
      jobs := jobs[id := job];
      if !OneActive(jobs) {
        jobs := before;
        return None;
      }
      return Some(id);
    }

    method ClaimNextJob(worker: Worker, now: Time) returns (claimed: Option<JobId>)
      modifies this`jobs, this`builds
      ensures Value() == Next(policy, old(Value()), Claim(worker, now))
      ensures claimed.Some? ==> HoldsLease(jobs, claimed.value, worker) && IsOldest(old(jobs), now, claimed.value)
      ensures claimed.None? ==> forall i :: i in jobs ==> !Claimable(jobs[i], now)
    {
      claimed := FindClaimable(now);
      if claimed.Some? {
        builds := builds + {(claimed.value, NextRevision(Value(), claimed.value))};
        jobs := jobs[claimed.value := Claimed(policy, jobs[claimed.value], worker, now)];
      }
    }

    method CompleteJob(id: JobId, worker: Worker, now: Time) returns (done: bool)
      modifies this`jobs
      ensures Value() == Next(policy, old(Value()), Complete(id, worker, now))
      ensures done == HoldsLease(old(jobs), id, worker)
    {
      done := HoldsLease(jobs, id, worker);
      if done {
        jobs := jobs[id := Completed(jobs[id], now)];
      }
    }

    method FailJob(id: JobId, worker: Worker, now: Time) returns (done: bool)
      modifies this`jobs
      ensures Value() == Next(policy, old(Value()), Step.Fail(id, worker, now))
      ensures done == HoldsLease(old(jobs), id, worker)
    {
      if !HoldsLease(jobs, id, worker) {
        return false;
      }
      var job := jobs[id];
      var nextAttempt := job.attempt + 1;
      var status, cooldown := NeedsManual, None;
      if nextAttempt < policy.maxAttempts {
        status, cooldown := Failed, Some(now + policy.backoffBase * Pow(2, nextAttempt - 1));
      }
      jobs := jobs[id := job.(status := status, attempt := nextAttempt, cooldown := cooldown,
      leaseOwner := None, leaseExpires := None, updated := now)];
      return true;
    }

    method MarkNeedsManual(id: JobId, now: Time) returns (done: bool)
      modifies this`jobs
      ensures Value() == Next(policy, old(Value()), MarkManual(id, now))
      ensures done == (id in old(jobs))
    {
      done := id in jobs;
      if done {
        jobs := jobs[id := Manual(jobs[id], now)];
      }
    }

    /** Reject a draft and hand its job back; an index refusal undoes both. */
    method RequeueForRefinement(d: DraftId, now: Time) returns (requeued: Option<bool>)
      modifies this
      ensures Value() == Next(policy, old(Value()), Requeue(d, now))
      ensures requeued.Some? <==> RequeueResult(policy, old(Value()), d, now).Some?
      ensures requeued == Some(true) ==> jobs[drafts[d].job].status.Queued?
      ensures requeued == Some(false) ==> jobs[drafts[d].job].status.NeedsManual?
    {
      hide OneActive;
      if !CanRefine(jobs, drafts, d) {
        return None;
      }
      var draft := drafts[d];
      drafts := drafts[d := draft.(status := Rejected)];
      if draft.revision >= policy.maxRefinements {
        var _ := MarkNeedsManual(draft.job, now);
        return Some(false);
      }
      var before := jobs;
      jobs := jobs[draft.job := Requeued(jobs[draft.job], now)];
      if !OneActive(jobs) {
        jobs := before;
        drafts := drafts[d := draft];
        return None;
      }
      return Some(true);
    }
  }
}
