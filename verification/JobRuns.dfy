/**
 Every run of the job store. After a lease expires two workers may hold the same
 job, and whoever finishes writes the row; a holder keeps the attempt count, the
 limit and the revision it was handed at its claim.
 */
module JobRuns {
  import opened Wrappers
  import opened JobRows

  datatype JobId = JobId(number: nat)

  /** A claim in some worker's hands. */
  datatype Holder = Holder(job: JobId, attempt: int, limit: int, revision: int)

  /** `holders` is keyed by the tick of the claim. */
  datatype Sys = Sys(jobs: map<JobId, Job>, holders: map<nat, Holder>, tick: nat)

  datatype Action =
    | Enqueue(job: JobId, row: Job, request: Request, runAfter: Option<int>, maxAttempts: int)
    | Claim(job: JobId, now: int, staleBefore: int)
    | Complete(holder: nat, now: int)
    | Fail(holder: nat, now: int, retryAt: int)
    | Defer(holder: nat, resumeAt: int)

  predicate IsNewRow(row: Job, maxAttempts: int) {
    && row.status == Queued && row.attempts == 0 && row.maxAttempts == maxAttempts
    && row.requested == 1 && row.completed == 0 && row.lockedAt.None?
  }

  ghost predicate Init(s: Sys) {
    s == Sys(map[], map[], 0)
  }

  ghost predicate Next(s: Sys, action: Action, s': Sys) {
    && s'.tick == s.tick + 1
    && match action
       case Enqueue(id, row, request, runAfter, maxAttempts) =>
         && maxAttempts >= 1 && s'.holders == s.holders
         && if id !in s.jobs then
              IsNewRow(row, maxAttempts) && row.isCase == !request.ArticleRequest? && s'.jobs == s.jobs[id := row]
            else
              && s.jobs[id].isCase == !request.ArticleRequest?
              && s'.jobs == s.jobs[id := Enqueued(s.jobs[id], request, runAfter, maxAttempts)]
       case Claim(id, now, staleBefore) =>
         && id in s.jobs && Eligible(s.jobs[id], now, staleBefore)
         && s'.jobs == s.jobs[id := Claimed(s.jobs[id], now)]
         && s'.holders == s.holders[s.tick :=
             Holder(id, s.jobs[id].attempts + 1, s.jobs[id].maxAttempts, s.jobs[id].requested)]
       case Complete(h, now) =>
         && h in s.holders && s.holders[h].job in s.jobs && s'.holders == s.holders - {h}
         && var id, j := s.holders[h].job, s.jobs[s.holders[h].job];
            s'.jobs == s.jobs[id := Completed(j, Processed(j, s.holders[h].revision), now)]
       case Fail(h, now, retryAt) =>
         && h in s.holders && s.holders[h].job in s.jobs && s'.holders == s.holders - {h}
         && var id, j, held := s.holders[h].job, s.jobs[s.holders[h].job], s.holders[h];
            s'.jobs == s.jobs[id := FailedBy(j, Processed(j, held.revision), held.attempt, held.limit, now, retryAt)]
       case Defer(h, resumeAt) =>
         && h in s.holders && s.holders[h].job in s.jobs && s'.holders == s.holders - {h}
         && s'.jobs == s.jobs[s.holders[h].job := Deferred(s.jobs[s.holders[h].job], resumeAt)]
  }

  datatype Run = Run(states: seq<Sys>, actions: seq<Action>)

  ghost predicate IsRun(r: Run) {
    && |r.states| == |r.actions| + 1
    && Init(r.states[0])
    && forall i {:trigger r.actions[i]} | 0 <= i < |r.actions| :: Next(r.states[i], r.actions[i], r.states[i + 1])
  }

  // ---- The invariant ----

  ghost predicate Inv(s: Sys) {
    && (forall id | id in s.jobs :: RowInv(s.jobs[id]))
    && (forall h | h in s.holders :: h < s.tick && s.holders[h].job in s.jobs
                                     && s.holders[h].revision <= s.jobs[s.holders[h].job].requested)
  }

  lemma StepKeepsRows(s: Sys, action: Action, s': Sys)
    requires Inv(s) && Next(s, action, s')
    ensures forall id | id in s'.jobs :: RowInv(s'.jobs[id])
  {
    match action
    case Enqueue(id, row, request, runAfter, maxAttempts) =>
      if id in s.jobs {
        EnqueuedKeepsRow(s.jobs[id], request, runAfter, maxAttempts);
      }
    case Claim(id, now, staleBefore) =>
    case Complete(h, now) =>
      CompletedKeepsRow(s.jobs[s.holders[h].job], s.holders[h].revision, now);
    case Fail(h, now, retryAt) =>
      FailedKeepsRow(s.jobs[s.holders[h].job], s.holders[h].revision, s.holders[h].attempt, s.holders[h].limit, now,
          retryAt);
    case Defer(h, resumeAt) =>
  }

  lemma StepKeepsInv(s: Sys, action: Action, s': Sys)
    requires Inv(s) && Next(s, action, s')
    ensures Inv(s')
  {
    StepKeepsRows(s, action, s');
    forall h | h in s'.holders
      ensures h < s'.tick && s'.holders[h].job in s'.jobs
          && s'.holders[h].revision <= s'.jobs[s'.holders[h].job].requested
    {
      assert h in s.holders || action.Claim?;
    }
  }

  lemma {:induction false} RunKeepsInv(r: Run, i: nat)
    requires IsRun(r) && i < |r.states|
    ensures Inv(r.states[i]) && r.states[i].tick == i
  {
    if i > 0 {
      RunKeepsInv(r, i - 1);
      assert Next(r.states[i - 1], r.actions[i - 1], r.states[i]);
      StepKeepsInv(r.states[i - 1], r.actions[i - 1], r.states[i]);
    }
  }

  /** In every reachable state: attempts in bounds, nothing to underflow, and no lost revision. */
  lemma RowsStaySound(r: Run, i: nat, id: JobId)
    requires IsRun(r) && i < |r.states| && id in r.states[i].jobs
    ensures var j := r.states[i].jobs[id];
            && 0 <= j.attempts <= j.maxAttempts
            && (j.status == Running ==> j.attempts >= 1)
            && (j.status == Succeeded ==> j.completed == j.requested)
  {
    RunKeepsInv(r, i);
  }

  // ---- The completing run saw the latest request ----

  predicate AsksRevision(action: Action, id: JobId) {
    action.Enqueue? && action.job == id && action.request == CaseRevision
  }

  /** `requested_revision` never decreases, and every revision request raises it. */
  lemma {:induction false} RequestsRaiseRevision(r: Run, i: nat, k: nat, id: JobId)
    requires IsRun(r) && i <= k < |r.states| && id in r.states[i].jobs
    ensures id in r.states[k].jobs
    ensures r.states[i].jobs[id].requested <= r.states[k].jobs[id].requested
    ensures r.states[i].jobs[id].requested == r.states[k].jobs[id].requested ==>
              forall m | i <= m < k :: !AsksRevision(r.actions[m], id)
    decreases k
  {
    if i < k {
      RequestsRaiseRevision(r, i, k - 1, id);
      assert Next(r.states[k - 1], r.actions[k - 1], r.states[k]);
    }
  }

  /** A holder's key is the step of its claim, and its revision the one requested then. */
  lemma {:induction false} HoldersRememberTheirClaim(r: Run, i: nat, h: nat)
    requires IsRun(r) && i < |r.states| && h in r.states[i].holders
    ensures h < i && r.actions[h].Claim? && r.actions[h].job == r.states[i].holders[h].job
    ensures r.actions[h].job in r.states[h].jobs
    ensures var held, j := r.states[i].holders[h], r.states[h].jobs[r.actions[h].job];
            held.revision == j.requested && held.attempt == j.attempts + 1 && held.limit == j.maxAttempts
  {
    RunKeepsInv(r, i - 1);
    assert Next(r.states[i - 1], r.actions[i - 1], r.states[i]);
    if h in r.states[i - 1].holders {
      HoldersRememberTheirClaim(r, i - 1, h);
    }
  }

  /** The step at which some holder writes its result to the row. */
  predicate Finishes(s: Sys, action: Action, id: JobId) {
    (action.Complete? || action.Fail?) && action.holder in s.holders && s.holders[action.holder].job == id
  }

  /**
   Even with workers whose lease expired: when finishing closes a Case job, as
   succeeded or as failed for good, the finishing worker claimed it after every
   revision request so far.
   */
  lemma ClosingFollowsLatestRequest(r: Run, i: nat, id: JobId)
    requires IsRun(r) && i < |r.actions| && Finishes(r.states[i], r.actions[i], id)
    requires id in r.states[i + 1].jobs && r.states[i + 1].jobs[id].isCase
    requires r.states[i + 1].jobs[id].status in {Succeeded, Failed}
    ensures forall m | 0 <= m < i && AsksRevision(r.actions[m], id) :: m < r.actions[i].holder
  {
    var h := r.actions[i].holder;
    assert Next(r.states[i], r.actions[i], r.states[i + 1]);
    HoldersRememberTheirClaim(r, i, h);
    RequestsRaiseRevision(r, h, i, id);
  }

  /**
   A job is closed as failed for good only by a worker whose claim used the last attempt
   there was at that claim, and only if no newer revision of a Case job has been asked for.
   */
  lemma FailedOnlyAtTheLimit(r: Run, i: nat, id: JobId)
    requires IsRun(r) && i < |r.actions| && id in r.states[i].jobs && id in r.states[i + 1].jobs
    requires r.states[i].jobs[id].status != Failed && r.states[i + 1].jobs[id].status == Failed
    ensures r.actions[i].Fail? && Finishes(r.states[i], r.actions[i], id)
    ensures var h := r.actions[i].holder;
            && h < i && r.actions[h].Claim? && r.actions[h].job == id && id in r.states[h].jobs
            && r.states[h].jobs[id].attempts + 1 >= r.states[h].jobs[id].maxAttempts
    ensures r.states[i].jobs[id].isCase ==>
              r.states[i].jobs[id].requested <= r.states[i].holders[r.actions[i].holder].revision
  {
    assert Next(r.states[i], r.actions[i], r.states[i + 1]);
    HoldersRememberTheirClaim(r, i, r.actions[i].holder);
  }

  /** A failure with attempts left reopens the job from the retry time on; the last one closes it. */
  lemma FailureReopensOrCloses(r: Run, i: nat, id: JobId, t: int, staleBefore: int)
    requires IsRun(r) && i < |r.actions| && r.actions[i].Fail? && Finishes(r.states[i], r.actions[i], id)
    requires id in r.states[i].jobs
    ensures id in r.states[i + 1].jobs
    ensures var j, k, held := r.states[i].jobs[id], r.states[i + 1].jobs[id], r.states[i].holders[r.actions[i].holder];
            !(j.isCase && j.requested > held.revision) ==>
              && (k.status == Failed <==> held.attempt >= held.limit)
              && (Eligible(k, t, staleBefore)
                  <==> held.attempt < held.limit && t >= r.actions[i].retryAt && j.attempts < j.maxAttempts)
  {
    assert Next(r.states[i], r.actions[i], r.states[i + 1]);
    RunKeepsInv(r, i);
    var held := r.states[i].holders[r.actions[i].holder];
    FailureClosesOnlyAtTheLimit(r.states[i].jobs[id], held.revision, held.attempt, held.limit, r.actions[i].now,
        r.actions[i].retryAt);
  }

  // ---- Attempt accounting ----

  predicate IsClaim(action: Action, id: JobId) {
    action.Claim? && action.job == id
  }

  /** The step gives an attempt back. */
  predicate IsEffectiveDefer(s: Sys, action: Action, id: JobId) {
    && action.Defer? && action.holder in s.holders && s.holders[action.holder].job == id
    && id in s.jobs && s.jobs[id].status == Running
  }

  /** The step starts the job's attempts afresh: a request, a revival, or a newer revision found at the end. */
  predicate IsReset(s: Sys, action: Action, id: JobId) {
    id in s.jobs &&
    match action
    case Enqueue(job, _, request, _, _) => job == id && Revives(s.jobs[id], request)
    case Complete(h, _) => FindsNewer(s, h, id)
    case Fail(h, _, _) => FindsNewer(s, h, id)
    case _ => false
  }

  predicate Revives(j: Job, request: Request) {
    match request
    case CaseRevision => j.status != Running
    case EnsureCase(requeueFailed) => j.status == Succeeded || (j.status == Failed && requeueFailed)
    case ArticleRequest(requeueFailed) => j.status == Failed && requeueFailed
  }

  predicate FindsNewer(s: Sys, h: nat, id: JobId)
    requires id in s.jobs
  {
    h in s.holders && s.holders[h].job == id && Newer(s.jobs[id], Processed(s.jobs[id], s.holders[h].revision))
  }

  /** Every reset leaves the job queued with all its attempts: it can be claimed from its `run_after` on. */
  lemma ResetsReopen(s: Sys, action: Action, s': Sys, id: JobId, now: int, staleBefore: int)
    requires Inv(s) && Next(s, action, s') && IsReset(s, action, id) && id in s'.jobs
    requires s'.jobs[id].runAfter.Some? ==> s'.jobs[id].runAfter.value <= now
    ensures s'.jobs[id].attempts == 0 && Eligible(s'.jobs[id], now, staleBefore)
  {
    assert RowInv(s.jobs[id]);
  }

  // ---- Work asked for again without a revision ----

  /** Step `i` closes the job. */
  predicate Closes(r: Run, i: nat, id: JobId)
    requires i < |r.actions| && |r.states| == |r.actions| + 1
  {
    && Finishes(r.states[i], r.actions[i], id)
    && id in r.states[i + 1].jobs && r.states[i + 1].jobs[id].status in {Succeeded, Failed}
  }

  ghost predicate Continues(r: Run, before: Run) {
    && IsRun(r) && |before.actions| <= |r.actions| && |before.states| == |before.actions| + 1
    && (forall i {:trigger before.states[i]} | 0 <= i < |before.states| :: r.states[i] == before.states[i])
    && forall i {:trigger r.actions[i]} | 0 <= i < |before.actions| :: r.actions[i] == before.actions[i]
  }

  /** In every continuation, whoever closes the job claimed it after the run so far. */
  ghost predicate ClosesAfresh(before: Run, id: JobId) {
    forall r, i: nat | Continues(r, before) && |before.actions| <= i < |r.actions| && Closes(r, i, id) ::
      r.actions[i].holder >= |before.actions|
  }

  /** Holder `h` could close the job: no newer revision has been requested since its claim. */
  predicate HoldsCurrent(s: Sys, h: nat, id: JobId) {
    && h in s.holders && s.holders[h].job == id && id in s.jobs
    && !Newer(s.jobs[id], Processed(s.jobs[id], s.holders[h].revision))
  }

  /** A claim in hands at step `i` that is older than step `n` was in hands then too; a Case job stays one. */
  lemma {:induction false} OldClaimsWereInHands(r: Run, n: nat, i: nat, h: nat, id: JobId)
    requires IsRun(r) && h < n <= i < |r.states| && h in r.states[i].holders && id in r.states[n].jobs
    ensures h in r.states[n].holders && r.states[n].holders[h] == r.states[i].holders[h]
    ensures id in r.states[i].jobs && r.states[i].jobs[id].isCase == r.states[n].jobs[id].isCase
    decreases i
  {
    if n < i {
      RunKeepsInv(r, i - 1);
      assert Next(r.states[i - 1], r.actions[i - 1], r.states[i]);
      OldClaimsWereInHands(r, n, i - 1, h, id);
    }
  }

  /** An old claim that is behind the requested revision never closes the job. */
  lemma OutdatedClaimsDoNotClose(r: Run, n: nat, i: nat, id: JobId)
    requires IsRun(r) && n <= i < |r.actions| && id in r.states[n].jobs && Closes(r, i, id)
    ensures r.actions[i].holder >= n || HoldsCurrent(r.states[n], r.actions[i].holder, id)
  {
    var h := r.actions[i].holder;
    assert Next(r.states[i], r.actions[i], r.states[i + 1]);
    if h < n {
      OldClaimsWereInHands(r, n, i, h, id);
      RequestsRaiseRevision(r, n, i, id);
    }
  }

  /** The run so far, and then holder `h` completes the job. */
  lemma CurrentHolderCloses(before: Run, h: nat, id: JobId) returns (r: Run)
    requires IsRun(before) && HoldsCurrent(before.states[|before.actions|], h, id)
    ensures Continues(r, before) && |r.actions| == |before.actions| + 1 && r.actions[|before.actions|].Complete?
    ensures Closes(r, |before.actions|, id) && r.actions[|before.actions|].holder == h < |before.actions|
  {
    var n := |before.actions|;
    var s := before.states[n];
    var after := Sys(s.jobs[id := Completed(s.jobs[id], Processed(s.jobs[id], s.holders[h].revision), 0)],
                     s.holders - {h}, s.tick + 1);
    r := Run(before.states + [after], before.actions + [Complete(h, 0)]);
    assert Next(s, Complete(h, 0), after);
    forall i {:trigger r.actions[i]} | 0 <= i < |r.actions| ensures Next(r.states[i], r.actions[i], r.states[i + 1]) {
      if i < n {
        assert Next(before.states[i], before.actions[i], before.states[i + 1]);
      }
    }
    RunKeepsInv(before, n);
  }

  /**
   At any moment, and so right after a job was asked for again: whoever closes it
   from then on will have claimed it afresh, if and only if no claim of the current
   revision is still in some worker's hands.
   */
  lemma ClosesAfreshIffNoCurrentHolder(before: Run, id: JobId)
    requires IsRun(before) && id in before.states[|before.actions|].jobs
    ensures ClosesAfresh(before, id) <==> forall h: nat :: !HoldsCurrent(before.states[|before.actions|], h, id)
  {
    var n := |before.actions|;
    if h: nat :| HoldsCurrent(before.states[n], h, id) {
      var r := CurrentHolderCloses(before, h, id);
      assert Closes(r, n, id);
    } else {
      forall r, i: nat | Continues(r, before) && n <= i < |r.actions| && Closes(r, i, id)
        ensures r.actions[i].holder >= n
      {
        OutdatedClaimsDoNotClose(r, n, i, id);
      }
    }
  }

  /** A request for a revision leaves no current holder, so that only a fresh claim can answer it. */
  lemma RevisionRequestsNeedAFreshClaim(before: Run, id: JobId)
    requires IsRun(before) && |before.actions| > 0 && AsksRevision(before.actions[|before.actions| - 1], id)
    requires id in before.states[|before.actions| - 1].jobs && before.states[|before.actions| - 1].jobs[id].isCase
    ensures ClosesAfresh(before, id)
  {
    var n := |before.actions| - 1;
    RunKeepsInv(before, n);
    assert Next(before.states[n], before.actions[n], before.states[n + 1]);
    ClosesAfreshIffNoCurrentHolder(before, id);
  }

  /** A job that was claimed twice, completed by the second worker, and ensured again: the first still holds it. */
  function TwiceClaimed(id: JobId, row: Job, limit: int): Run {
    var again := EnsureCase(true);
    var claimed := Claimed(row, 0);
    var reclaimed := Claimed(claimed, 10);
    var done := Completed(reclaimed, Processed(reclaimed, row.requested), 11);
    var first, second := Holder(id, row.attempts + 1, row.maxAttempts, row.requested),
                         Holder(id, row.attempts + 2, row.maxAttempts, row.requested);
    Run([Sys(map[], map[], 0),
         Sys(map[id := row], map[], 1),
         Sys(map[id := claimed], map[1 := first], 2),
         Sys(map[id := reclaimed], map[1 := first, 2 := second], 3),
         Sys(map[id := done], map[1 := first], 4),
         Sys(map[id := Enqueued(done, again, None, limit)], map[1 := first], 5)],
        [Enqueue(id, row, again, None, limit), Claim(id, 0, 0), Claim(id, 10, 5), Complete(2, 11),
         Enqueue(id, row, again, None, limit)])
  }

  lemma TwiceClaimedIsARun(id: JobId, row: Job, limit: int)
    requires IsNewRow(row, limit) && row.isCase && row.runAfter.None? && limit >= 2
    ensures IsRun(TwiceClaimed(id, row, limit))
    ensures HoldsCurrent(TwiceClaimed(id, row, limit).states[5], 1, id)
    ensures IsReset(TwiceClaimed(id, row, limit).states[4], TwiceClaimed(id, row, limit).actions[4], id)
  {
    var before := TwiceClaimed(id, row, limit);
    assert Next(before.states[0], before.actions[0], before.states[1]);
    assert Next(before.states[1], before.actions[1], before.states[2]);
    assert Next(before.states[2], before.actions[2], before.states[3]);
    assert before.states[3].holders - {2} == before.states[4].holders;
    assert Next(before.states[3], before.actions[3], before.states[4]);
    assert Next(before.states[4], before.actions[4], before.states[5]);
  }

  /** So a job ensured again can be closed by a worker that claimed it before. */
  lemma EnsuredWorkMayBeClosedByAnOldClaim(id: JobId, row: Job, limit: int) returns (r: Run)
    requires IsNewRow(row, limit) && row.isCase && row.runAfter.None? && limit >= 2
    ensures IsRun(r) && |r.actions| == 6 && Closes(r, 5, id)
    ensures IsReset(r.states[4], r.actions[4], id) && r.actions[4].Enqueue? && r.actions[5].holder < 4
  {
    var before := TwiceClaimed(id, row, limit);
    TwiceClaimedIsARun(id, row, limit);
    r := CurrentHolderCloses(before, 1, id);
    assert r.states[4] == before.states[4] && r.actions[4] == before.actions[4];
  }

  function Claims(r: Run, id: JobId, n: nat): nat
    requires n <= |r.actions|
  {
    if n == 0 then 0 else Claims(r, id, n - 1) + if IsClaim(r.actions[n - 1], id) then 1 else 0
  }

  function Resets(r: Run, id: JobId, n: nat): nat
    requires n <= |r.actions| < |r.states|
  {
    if n == 0 then 0 else Resets(r, id, n - 1) + if IsReset(r.states[n - 1], r.actions[n - 1], id) then 1 else 0
  }

  function EffectiveDefers(r: Run, id: JobId, n: nat): nat
    requires n <= |r.actions| < |r.states|
  {
    if n == 0 then 0
    else EffectiveDefers(r, id, n - 1) + if IsEffectiveDefer(r.states[n - 1], r.actions[n - 1], id) then 1 else 0
  }

  ghost predicate FixedLimit(r: Run, limit: nat) {
    forall i | 0 <= i < |r.actions| && r.actions[i].Enqueue? :: r.actions[i].maxAttempts == limit
  }

  lemma {:induction false} LimitStays(r: Run, limit: nat, id: JobId, n: nat)
    requires IsRun(r) && FixedLimit(r, limit) && n < |r.states| && id in r.states[n].jobs
    ensures r.states[n].jobs[id].maxAttempts == limit
  {
    if n > 0 {
      assert Next(r.states[n - 1], r.actions[n - 1], r.states[n]);
      RunKeepsInv(r, n - 1);
      if id in r.states[n - 1].jobs {
        LimitStays(r, limit, id, n - 1);
      }
    }
  }

  function AttemptsOf(s: Sys, id: JobId): int {
    if id in s.jobs then s.jobs[id].attempts else 0
  }

  /** What one step adds to the claims is matched by the row, a reset, or a deferral. */
  lemma StepIsCounted(s: Sys, action: Action, s': Sys, id: JobId, limit: nat)
    requires Inv(s) && Next(s, action, s')
    requires id in s.jobs ==> s.jobs[id].maxAttempts == limit
    ensures AttemptsOf(s, id) + (if IsClaim(action, id) then 1 else 0)
         <= AttemptsOf(s', id) + (if IsReset(s, action, id) then limit else 0)
             + (if IsEffectiveDefer(s, action, id) then 1 else 0)
  {
    if id in s.jobs {
      assert RowInv(s.jobs[id]);
    }
  }

  /** The attempts that resets may have wiped out. */
  function Wiped(r: Run, limit: nat, id: JobId, n: nat): (wiped: nat)
    requires n <= |r.actions| < |r.states|
    ensures wiped == limit * Resets(r, id, n)
  {
    if n == 0 then 0
    else
      var before, resets := Wiped(r, limit, id, n - 1), Resets(r, id, n - 1);
      assert limit * (resets + 1) == limit * resets + limit;
      before + if IsReset(r.states[n - 1], r.actions[n - 1], id) then limit else 0
  }

  /** The claims so far, less what was given back or wiped out, are what the row still counts. */
  lemma {:induction false} ClaimsAreCounted(r: Run, limit: nat, id: JobId, n: nat)
    requires IsRun(r) && FixedLimit(r, limit) && n <= |r.actions|
    ensures Claims(r, id, n) <= AttemptsOf(r.states[n], id) + Wiped(r, limit, id, n) + EffectiveDefers(r, id, n)
  {
    if n > 0 {
      ClaimsAreCounted(r, limit, id, n - 1);
      RunKeepsInv(r, n - 1);
      assert Next(r.states[n - 1], r.actions[n - 1], r.states[n]);
      if id in r.states[n - 1].jobs {
        LimitStays(r, limit, id, n - 1);
      }
      StepIsCounted(r.states[n - 1], r.actions[n - 1], r.states[n], id, limit);
    }
  }

  /** A job is claimed at most `limit` times per reset, plus once per deferral that took effect. */
  lemma ClaimsAreBounded(r: Run, limit: nat, id: JobId, n: nat)
    requires IsRun(r) && FixedLimit(r, limit) && n <= |r.actions|
    ensures Claims(r, id, n) <= limit * (1 + Resets(r, id, n)) + EffectiveDefers(r, id, n)
  {
    ClaimsAreCounted(r, limit, id, n);
    assert AttemptsOf(r.states[n], id) <= limit by {
      if id in r.states[n].jobs {
        RunKeepsInv(r, n);
        LimitStays(r, limit, id, n);
      }
    }
    assert limit * (1 + Resets(r, id, n)) == limit + limit * Resets(r, id, n);
  }
}
