/** One durable job row, and what each statement of the job store does to it. */
module JobRows {
  import opened JobTypes
  import opened Wrappers

  datatype JobStatus = Queued | Running | Succeeded | Failed

  datatype Job = Job(
    jobType: JobType,
    isCase: bool,
    status: JobStatus,
    priority: int,
    attempts: int,
    maxAttempts: int,
    requested: int,
    completed: int,
    runAfter: Option<int>,
    lockedAt: Option<int>,
    articlePublished: Option<int>,
    articleCreated: Option<int>,
    created: int,
    uuid: nat)

  /** Which enqueue entry point is used, and whether it revives a failed job. */
  datatype Request =
    | ArticleRequest(requeueFailed: bool)
    | CaseRevision
    | EnsureCase(requeueFailed: bool)

  // ---- Enqueueing ----

  function Requeued(j: Job, runAfter: Option<int>, maxAttempts: int): Job {
    j.(status := Queued, attempts := 0, runAfter := runAfter, lockedAt := None, maxAttempts := maxAttempts)
  }

  /** `_enqueue_job` on a row that already exists. */
  function Enqueued(j: Job, request: Request, runAfter: Option<int>, maxAttempts: int): Job {
    match request
    case CaseRevision =>
      var bumped := j.(requested := j.requested + 1, runAfter := runAfter);
      if j.status == Running then bumped
      else bumped.(status := Queued, attempts := 0, lockedAt := None)
    case EnsureCase(requeueFailed) =>
      if j.status == Succeeded || (j.status == Failed && requeueFailed) then Requeued(j, runAfter, maxAttempts) else j
    case ArticleRequest(requeueFailed) =>
      if j.status == Failed && requeueFailed then Requeued(j, runAfter, maxAttempts) else j
  }

  // ---- Claiming ----

  /** `_eligible_job_id_query`, for one row. */
  predicate Eligible(j: Job, now: int, staleBefore: int) {
    && j.attempts < j.maxAttempts
    && match j.status
       case Queued => j.runAfter.None? || j.runAfter.value <= now
       case Running => j.lockedAt.Some? && j.lockedAt.value < staleBefore
       case _ => false
  }

  function Claimed(j: Job, now: int): Job {
    j.(status := Running, lockedAt := Some(now), attempts := j.attempts + 1)
  }

  // ---- Finishing; none of these checks who holds the job ----

  /** `processed_revision`: only Case jobs carry one. */
  function Processed(j: Job, revision: int): Option<int> {
    if j.isCase then Some(revision) else None
  }

  predicate Newer(j: Job, processed: Option<int>) {
    processed.Some? && j.requested > processed.value
  }

  function Completed(j: Job, processed: Option<int>, now: int): Job {
    if Newer(j, processed) then
      j.(status := Queued, completed := processed.value, runAfter := Some(now), attempts := 0, lockedAt := None)
    else
      j.(status := Succeeded, completed := if processed.Some? then processed.value else j.requested, lockedAt := None)
  }

  /** `attempt` and `limit` are the counts the finishing worker was handed at its claim. */
  function FailedBy(j: Job, processed: Option<int>, attempt: int, limit: int, now: int, retryAt: int): Job {
    if Newer(j, processed) then
      j.(status := Queued, attempts := 0, runAfter := Some(now), lockedAt := None)
    else if attempt >= limit then
      j.(status := Failed, lockedAt := None)
    else
      j.(status := Queued, runAfter := Some(retryAt), lockedAt := None)
  }

  function Deferred(j: Job, runAfter: int): Job {
    if j.status == Running then
      j.(status := Queued, attempts := j.attempts - 1, runAfter := Some(runAfter), lockedAt := None)
    else j
  }

  // ---- What every statement keeps ----

  /** Attempts stay within bounds, a running row has one to give back, and success means caught up. */
  predicate RowInv(j: Job) {
    && 0 <= j.attempts <= j.maxAttempts && 1 <= j.maxAttempts
    && (j.status == Running ==> j.attempts >= 1)
    && (j.status == Running <==> j.lockedAt.Some?)
    && (j.status == Succeeded ==> j.completed == j.requested)
    && 1 <= j.requested && (!j.isCase ==> j.requested == 1)
  }

  lemma EnqueuedKeepsRow(j: Job, request: Request, runAfter: Option<int>, maxAttempts: int)
    requires RowInv(j) && maxAttempts >= 1 && j.isCase == !request.ArticleRequest?
    ensures RowInv(Enqueued(j, request, runAfter, maxAttempts))
  {
  }

  lemma CompletedKeepsRow(j: Job, revision: int, now: int)
    requires RowInv(j) && revision <= j.requested
    ensures RowInv(Completed(j, Processed(j, revision), now))
  {
  }

  lemma FailedKeepsRow(j: Job, revision: int, attempt: int, limit: int, now: int, retryAt: int)
    requires RowInv(j)
    ensures RowInv(FailedBy(j, Processed(j, revision), attempt, limit, now, retryAt))
  {
  }

  /**
   A deferral gives back exactly one attempt of a running row, never below zero, and is
   nothing to a holder too late.
   */
  lemma DeferredKeepsRow(j: Job, runAfter: int)
    requires RowInv(j)
    ensures RowInv(Deferred(j, runAfter))
    ensures Deferred(j, runAfter).attempts == j.attempts - (if j.status == Running then 1 else 0) >= 0
    ensures j.status != Running ==> Deferred(j, runAfter) == j
  {
  }

  /** Claiming a queued job and deferring it leaves it as it was, except for the time from which it may be claimed. */
  lemma DeferUndoesClaim(j: Job, now: int, runAfter: int)
    requires RowInv(j) && j.status == Queued
    ensures Deferred(Claimed(j, now), runAfter) == j.(runAfter := Some(runAfter))
    ensures j.attempts < j.maxAttempts ==>
              forall t, staleBefore :: t >= runAfter ==> Eligible(Deferred(Claimed(j, now), runAfter), t, staleBefore)
  {
  }

  // ---- What each statement is for ----

  /**
   A claim uses up one attempt; the job can be claimed again when the lease is stale and
   attempts remain, not before.
   */
  lemma ClaimedIsLeased(j: Job, now: int)
    requires RowInv(j) && j.attempts < j.maxAttempts
    ensures var k := Claimed(j, now);
            && RowInv(k) && k.status == Running && k.attempts == j.attempts + 1
            && k == j.(status := Running, attempts := k.attempts, lockedAt := k.lockedAt)
            && forall t, staleBefore ::
                 Eligible(k, t, staleBefore) <==> now < staleBefore && k.attempts < k.maxAttempts
  {
  }

  /**
   A job completed at the revision last asked for is closed for good; if a newer one was
   asked for meanwhile, it can be claimed at once with all its attempts.
   */
  lemma CompletedReopensForNewer(j: Job, revision: int, now: int)
    requires RowInv(j)
    ensures var k := Completed(j, Processed(j, revision), now);
            && k == j.(status := k.status, attempts := k.attempts, completed := k.completed, runAfter := k.runAfter,
                       lockedAt := None)
            && (if j.isCase && j.requested > revision then
                  && k.status == Queued && k.attempts == 0 && k.completed == revision
                  && forall t, staleBefore :: Eligible(k, t, staleBefore) <==> t >= now
                else
                  && k.status == Succeeded && k.attempts == j.attempts && k.runAfter == j.runAfter
                  && k.completed == (if j.isCase then revision else j.requested)
                  && forall t, staleBefore :: !Eligible(k, t, staleBefore))
  {
  }

  /**
   A failure closes the job exactly if it is the last attempt handed out and no newer
   revision was asked for. Any other failure keeps the attempts and can be claimed from the
   retry time on while attempts remain; a newer revision can be claimed at once.
   */
  lemma FailureClosesOnlyAtTheLimit(j: Job, revision: int, attempt: int, limit: int, now: int, retryAt: int)
    requires RowInv(j)
    ensures var k := FailedBy(j, Processed(j, revision), attempt, limit, now, retryAt);
            && k == j.(status := k.status, attempts := k.attempts, runAfter := k.runAfter, lockedAt := None)
            && (if j.isCase && j.requested > revision then
                  && k.status == Queued && k.attempts == 0
                  && forall t, staleBefore :: Eligible(k, t, staleBefore) <==> t >= now
                else
                  && k.attempts == j.attempts
                  && (k.status == Failed <==> attempt >= limit) && (k.status == Queued <==> attempt < limit)
                  && (attempt >= limit ==>
                        k.runAfter == j.runAfter && forall t, staleBefore :: !Eligible(k, t, staleBefore))
                  && (attempt < limit ==> forall t, staleBefore ::
                        Eligible(k, t, staleBefore) <==> t >= retryAt && k.attempts < k.maxAttempts))
  {
  }

  /**
   Asking for a revision raises it and reopens a job that is not running; ensuring a job
   reopens one that is closed and may be revived. A reopened job has all its attempts and
   can be claimed from the time asked for; any other request changes nothing.
   */
  lemma EnqueuedReopens(j: Job, request: Request, runAfter: Option<int>, maxAttempts: int)
    requires RowInv(j) && maxAttempts >= 1
    ensures var k := Enqueued(j, request, runAfter, maxAttempts);
            var reopened := match request
                            case CaseRevision => j.status != Running
                            case EnsureCase(requeueFailed) => j.status == Succeeded
                                || (j.status == Failed && requeueFailed)
                            case ArticleRequest(requeueFailed) => j.status == Failed && requeueFailed;
            && k == j.(status := k.status, attempts := k.attempts, maxAttempts := k.maxAttempts, requested :=
                k.requested,
                       runAfter := k.runAfter, lockedAt := k.lockedAt)
            && k.requested == j.requested + (if request == CaseRevision then 1 else 0)
            && k.maxAttempts == (if reopened && request != CaseRevision then maxAttempts else j.maxAttempts)
            && (reopened ==>
                  && k.attempts == 0
                  && forall t, staleBefore ::
                       Eligible(k, t, staleBefore) <==> (runAfter.Some? ==> t >= runAfter.value))
            && (!reopened && request == CaseRevision ==> k == j.(requested := k.requested, runAfter := runAfter))
            && (!reopened && request != CaseRevision ==> k == j)
  {
  }
}
