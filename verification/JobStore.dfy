/** The job store's statements on its table, its claim order, and the drain test. */
module JobStore {
  import opened Collections
  import opened Wrappers
  import opened JobRows
  import opened JobRuns
  import opened JobTypes

  // ---- The claim order ----

  function NullsFirst(x: Option<int>): seq<int> {
    match x
    case None => [0, 0]
    case Some(v) => [1, v]
  }

  function NullsLast(x: Option<int>): seq<int> {
    match x
    case None => [1, 0]
    case Some(v) => [0, v]
  }

  /** The `ORDER BY` list of `_eligible_job_id_query`. */
  function SortKey(j: Job): (key: seq<int>)
    ensures |key| == 9
  {
    [-j.priority] + NullsFirst(j.runAfter) + NullsLast(j.articlePublished) + NullsLast(j.articleCreated)
        + [j.created, j.uuid]
  }

  predicate LexLeq(s: seq<int>, t: seq<int>)
    requires |s| == |t|
  {
    s == [] || s[0] < t[0] || (s[0] == t[0] && LexLeq(s[1..], t[1..]))
  }

  lemma {:induction false} LexTotal(s: seq<int>, t: seq<int>)
    requires |s| == |t|
    ensures LexLeq(s, t) || LexLeq(t, s)
  {
    if s != [] {
      LexTotal(s[1..], t[1..]);
    }
  }

  lemma {:induction false} LexTransitive(s: seq<int>, t: seq<int>, u: seq<int>)
    requires |s| == |t| == |u| && LexLeq(s, t) && LexLeq(t, u)
    ensures LexLeq(s, u)
  {
    if s != [] && s[0] == t[0] == u[0] {
      LexTransitive(s[1..], t[1..], u[1..]);
    }
  }

  /** `id` comes first among `ids` in claim order. */
  ghost predicate ClaimedFirst(jobs: map<JobId, Job>, ids: set<JobId>, id: JobId)
    requires ids <= jobs.Keys
  {
    id in ids && forall other | other in ids :: LexLeq(SortKey(jobs[id]), SortKey(jobs[other]))
  }

  /** `x` sorts before `y` where nulls come first. */
  predicate NullsFirstLeq(x: Option<int>, y: Option<int>) {
    x.None? || (y.Some? && x.value <= y.value)
  }

  predicate NullsLastLeq(x: Option<int>, y: Option<int>) {
    y.None? || (x.Some? && x.value <= y.value)
  }

  /** Where two keys first differ, the smaller one is smaller. */
  lemma {:induction false} LexReaches(s: seq<int>, t: seq<int>, i: nat)
    requires i < |s| == |t| && LexLeq(s, t)
    ensures (forall p | 0 <= p < i :: s[p] == t[p]) ==> s[i] <= t[i]
  {
    if i > 0 && s[0] == t[0] {
      LexReaches(s[1..], t[1..], i - 1);
    }
  }

  lemma KeyParts(j: Job)
    ensures var k := SortKey(j);
            && k[0] == -j.priority
            && k[1] == NullsFirst(j.runAfter)[0] && k[2] == NullsFirst(j.runAfter)[1]
            && k[3] == NullsLast(j.articlePublished)[0] && k[4] == NullsLast(j.articlePublished)[1]
            && k[5] == NullsLast(j.articleCreated)[0] && k[6] == NullsLast(j.articleCreated)[1]
            && k[7] == j.created && k[8] == j.uuid
  {
  }

  /**
   A claimed job has the highest priority; among those of its priority it is one that waits
   for no time, or for the earliest; then its Article is the one published first, with
   unpublished ones last, then the one stored first; then it is the oldest job.
   */
  lemma ClaimedFirstMeans(jobs: map<JobId, Job>, ids: set<JobId>, id: JobId, other: JobId)
    requires ids <= jobs.Keys && ClaimedFirst(jobs, ids, id) && other in ids
    ensures var j, k := jobs[id], jobs[other];
            && j.priority >= k.priority
            && (j.priority == k.priority ==>
                  && NullsFirstLeq(j.runAfter, k.runAfter)
                  && (j.runAfter == k.runAfter ==>
                        && NullsLastLeq(j.articlePublished, k.articlePublished)
                        && (j.articlePublished == k.articlePublished ==>
                              && NullsLastLeq(j.articleCreated, k.articleCreated)
                              && (j.articleCreated == k.articleCreated ==>
                                    j.created < k.created || (j.created == k.created && j.uuid <= k.uuid)))))
  {
    var s, t := SortKey(jobs[id]), SortKey(jobs[other]);
    KeyParts(jobs[id]);
    KeyParts(jobs[other]);
    LexReaches(s, t, 0);
    LexReaches(s, t, 1);
    LexReaches(s, t, 2);
    LexReaches(s, t, 3);
    LexReaches(s, t, 4);
    LexReaches(s, t, 5);
    LexReaches(s, t, 6);
    LexReaches(s, t, 7);
    LexReaches(s, t, 8);
  }

  // ---- The summary and the drain test ----

  datatype Summary = Summary(queued: nat, running: nat, blocked: nat, failed: nat, blockedRunning: nat)

  predicate ProcessableQueued(j: Job) {
    j.status == Queued && j.attempts < j.maxAttempts
  }

  predicate BlockedRunning(j: Job, staleBefore: int) {
    j.status == Running && j.lockedAt.Some? && j.lockedAt.value < staleBefore && j.attempts >= j.maxAttempts
  }

  predicate BlockedQueued(j: Job) {
    j.status == Queued && j.attempts >= j.maxAttempts
  }

  /** `drain_backfill` stops when nothing is queued and every running job is blocked. */
  predicate DrainTest(s: Summary) {
    s.queued == 0 && s.running - s.blockedRunning == 0
  }

  predicate InScope(jobs: map<JobId, Job>, types: set<JobType>, id: JobId) {
    id in jobs && jobs[id].jobType in types
  }

  function QueuedIds(jobs: map<JobId, Job>, types: set<JobType>): set<JobId> {
    set id | id in jobs && jobs[id].jobType in types && ProcessableQueued(jobs[id])
  }

  function RunningIds(jobs: map<JobId, Job>, types: set<JobType>): set<JobId> {
    set id | id in jobs && jobs[id].jobType in types && jobs[id].status == Running
  }

  function BlockedRunningIds(jobs: map<JobId, Job>, types: set<JobType>, staleBefore: int): set<JobId> {
    set id | id in jobs && jobs[id].jobType in types && BlockedRunning(jobs[id], staleBefore)
  }

  function BlockedIds(jobs: map<JobId, Job>, types: set<JobType>, staleBefore: int): set<JobId> {
    set id | id in jobs && jobs[id].jobType in types
        && (BlockedRunning(jobs[id], staleBefore) || BlockedQueued(jobs[id]))
  }

  /** `summarize_jobs`. */
  function Summarized(jobs: map<JobId, Job>, types: set<JobType>, staleBefore: int): Summary {
    var failed := set id | id in jobs && jobs[id].jobType in types && jobs[id].status == Failed;
    Summary(
      |QueuedIds(jobs, types)|, |RunningIds(jobs, types)|, |BlockedIds(jobs, types, staleBefore)|, |failed|,
      |BlockedRunningIds(jobs, types, staleBefore)|)
  }

  function OpenIds(jobs: map<JobId, Job>, types: set<JobType>): set<JobId> {
    set id | id in jobs && jobs[id].jobType in types && (jobs[id].status == Queued || jobs[id].status == Running)
  }

  function BlockedQueuedIds(jobs: map<JobId, Job>, types: set<JobType>): set<JobId> {
    set id | id in jobs && jobs[id].jobType in types && BlockedQueued(jobs[id])
  }

  lemma OpenJobsSplit(jobs: map<JobId, Job>, types: set<JobType>, stale: int)
    ensures OpenIds(jobs, types) == QueuedIds(jobs, types) + RunningIds(jobs, types) + BlockedQueuedIds(jobs, types)
    ensures BlockedIds(jobs, types, stale) == BlockedRunningIds(jobs, types, stale) + BlockedQueuedIds(jobs, types)
    ensures QueuedIds(jobs, types) !! RunningIds(jobs, types) !! BlockedQueuedIds(jobs, types)
    ensures BlockedRunningIds(jobs, types, stale) <= RunningIds(jobs, types)
  {
  }

  lemma PartsAreCounted<T>(queued: set<T>, running: set<T>, waiting: set<T>, stuck: set<T>)
    requires queued !! running !! waiting && stuck <= running
    ensures |queued| + |running| + |stuck + waiting| == |queued + running + waiting| + |stuck|
    ensures |stuck| <= |running| && |stuck| <= |stuck + waiting|
  {
    assert running == stuck + (running - stuck);
    assert stuck !! waiting;
    assert |stuck + waiting| == |stuck| + |waiting|;
  }

  /**
   The summary counts each open job of its types as queued, as running, or as blocked while
   queued, and blocked running jobs twice; failed ones are counted by themselves.
   */
  lemma OpenJobsAreCounted(jobs: map<JobId, Job>, types: set<JobType>, stale: int)
    ensures var s := Summarized(jobs, types, stale);
            && s.queued + s.running + s.blocked == |OpenIds(jobs, types)| + s.blockedRunning
            && s.blockedRunning <= s.running && s.blockedRunning <= s.blocked
            && s.failed == |set id | id in jobs && jobs[id].jobType in types && jobs[id].status == Failed|
  {
    OpenJobsSplit(jobs, types, stale);
    PartsAreCounted(QueuedIds(jobs, types), RunningIds(jobs, types), BlockedQueuedIds(jobs, types),
        BlockedRunningIds(jobs, types, stale));
  }

  predicate EligibleAt(j: Job, now: int, timeout: nat) {
    Eligible(j, now, now - timeout)
  }

  predicate LeaseExpired(j: Job, staleBefore: int) {
    j.lockedAt.Some? && j.lockedAt.value < staleBefore
  }

  ghost predicate NeverEligible(j: Job, timeout: nat) {
    forall now :: !EligibleAt(j, now, timeout)
  }

  /** No job of these types can be claimed at any time, and no lease on one was still running at `stale`. */
  ghost predicate Quiescent(jobs: map<JobId, Job>, types: set<JobType>, stale: int, timeout: nat) {
    && (forall id | InScope(jobs, types, id) :: NeverEligible(jobs[id], timeout))
    && (forall id | InScope(jobs, types, id) && jobs[id].status == Running :: LeaseExpired(jobs[id], stale))
  }

  /** Nothing in scope is open with attempts left, and every running job is blocked. */
  ghost predicate NothingOpen(jobs: map<JobId, Job>, types: set<JobType>, stale: int) {
    forall id | InScope(jobs, types, id) ::
      !ProcessableQueued(jobs[id]) && (jobs[id].status == Running ==> BlockedRunning(jobs[id], stale))
  }

  /** An open job with attempts left becomes claimable at some time. */
  lemma OpenJobsBecomeEligible(j: Job, timeout: nat) returns (due: int)
    requires RowInv(j) && j.status in {Queued, Running} && j.attempts < j.maxAttempts
    ensures EligibleAt(j, due, timeout)
  {
    due := if j.status == Running then j.lockedAt.value + timeout + 1
           else if j.runAfter.Some? then j.runAfter.value
           else 0;
  }

  lemma SubsetOfSameSize<T>(s: set<T>, t: set<T>)
    requires s <= t && |s| == |t|
    ensures s == t
  {
    assert |t - s| == |t| - |s|;
  }

  lemma DrainTestCounts(jobs: map<JobId, Job>, types: set<JobType>, stale: int)
    ensures DrainTest(Summarized(jobs, types, stale))
       <==> QueuedIds(jobs, types) == {} && |RunningIds(jobs, types)| == |BlockedRunningIds(jobs, types, stale)|
  {
  }

  lemma DrainedMeansNothingOpen(jobs: map<JobId, Job>, types: set<JobType>, stale: int)
    requires QueuedIds(jobs, types) == {} && |RunningIds(jobs, types)| == |BlockedRunningIds(jobs, types, stale)|
    ensures NothingOpen(jobs, types, stale)
  {
    SubsetOfSameSize(BlockedRunningIds(jobs, types, stale), RunningIds(jobs, types));
    forall id | InScope(jobs, types, id)
      ensures !ProcessableQueued(jobs[id]) && (jobs[id].status == Running ==> BlockedRunning(jobs[id], stale))
    {
      assert id !in QueuedIds(jobs, types);
      assert id in RunningIds(jobs, types) <==> id in BlockedRunningIds(jobs, types, stale);
    }
  }

  lemma NothingOpenIsQuiescent(jobs: map<JobId, Job>, types: set<JobType>, stale: int, timeout: nat)
    requires NothingOpen(jobs, types, stale)
    ensures Quiescent(jobs, types, stale, timeout)
  {
  }

  lemma DrainedMeansQuiescent(jobs: map<JobId, Job>, types: set<JobType>, stale: int, timeout: nat)
    requires DrainTest(Summarized(jobs, types, stale))
    ensures Quiescent(jobs, types, stale, timeout)
  {
    DrainTestCounts(jobs, types, stale);
    DrainedMeansNothingOpen(jobs, types, stale);
    NothingOpenIsQuiescent(jobs, types, stale, timeout);
  }

  lemma NeverEligibleIsExhausted(j: Job, timeout: nat)
    requires RowInv(j) && NeverEligible(j, timeout) && j.status in {Queued, Running}
    ensures j.attempts >= j.maxAttempts
  {
    if j.attempts < j.maxAttempts {
      var due := OpenJobsBecomeEligible(j, timeout);
    }
  }

  lemma QuiescentMeansDrained(jobs: map<JobId, Job>, types: set<JobType>, stale: int, timeout: nat)
    requires forall id | id in jobs :: RowInv(jobs[id])
    requires Quiescent(jobs, types, stale, timeout)
    ensures DrainTest(Summarized(jobs, types, stale))
  {
    forall id | InScope(jobs, types, id)
      ensures !ProcessableQueued(jobs[id]) && (jobs[id].status == Running ==> BlockedRunning(jobs[id], stale))
    {
      if jobs[id].status in {Queued, Running} {
        NeverEligibleIsExhausted(jobs[id], timeout);
      }
    }
    assert QueuedIds(jobs, types) == {};
    assert RunningIds(jobs, types) == BlockedRunningIds(jobs, types, stale);
    DrainTestCounts(jobs, types, stale);
  }

  /**
   The drain test holds exactly when no job of these types is claimable now or at
   any other time, and no lease is still running.
   */
  lemma DrainTestIsQuiescence(jobs: map<JobId, Job>, types: set<JobType>, stale: int, timeout: nat)
    requires forall id | id in jobs :: RowInv(jobs[id])
    ensures DrainTest(Summarized(jobs, types, stale)) <==> Quiescent(jobs, types, stale, timeout)
  {
    if DrainTest(Summarized(jobs, types, stale)) {
      DrainedMeansQuiescent(jobs, types, stale, timeout);
    }
    if Quiescent(jobs, types, stale, timeout) {
      QuiescentMeansDrained(jobs, types, stale, timeout);
    }
  }

  /** Whether a step may write a row of these types. */
  predicate Touches(s: Sys, action: Action, types: set<JobType>) {
    match action
    case Enqueue(id, row, _, _, _) => row.jobType in types || InScope(s.jobs, types, id)
    case Claim(id, _, _) => InScope(s.jobs, types, id)
    case Complete(h, _) => h in s.holders && InScope(s.jobs, types, s.holders[h].job)
    case Fail(h, _, _) => h in s.holders && InScope(s.jobs, types, s.holders[h].job)
    case Defer(h, _) => h in s.holders && InScope(s.jobs, types, s.holders[h].job)
  }

  ghost predicate Exhausted(s: Sys, types: set<JobType>) {
    forall id | InScope(s.jobs, types, id) && s.jobs[id].status in {Queued, Running} ::
      s.jobs[id].attempts >= s.jobs[id].maxAttempts
  }

  lemma UntouchedStaysExhausted(s: Sys, action: Action, s': Sys, types: set<JobType>)
    requires Next(s, action, s') && Exhausted(s, types)
    requires action.Claim? || !Touches(s, action, types)
    ensures !Touches(s, action, types) && Exhausted(s', types)
  {
  }

  lemma QuiescentIsExhausted(s: Sys, types: set<JobType>, stale: int, timeout: nat)
    requires forall id | id in s.jobs :: RowInv(s.jobs[id])
    requires Quiescent(s.jobs, types, stale, timeout)
    ensures Exhausted(s, types)
  {
    forall id | InScope(s.jobs, types, id) && s.jobs[id].status in {Queued, Running}
      ensures s.jobs[id].attempts >= s.jobs[id].maxAttempts
    {
      NeverEligibleIsExhausted(s.jobs[id], timeout);
    }
  }

  /** Step `m` of the run is a claim attempt, or does not write a row of these types. */
  predicate LeavesAlone(r: Run, types: set<JobType>, m: nat)
    requires m < |r.actions| < |r.states|
  {
    r.actions[m].Claim? || !Touches(r.states[m], r.actions[m], types)
  }

  lemma {:induction false} ExhaustedStays(r: Run, i: nat, k: nat, types: set<JobType>)
    requires IsRun(r) && i <= k < |r.states| && Exhausted(r.states[i], types)
    requires forall m | i <= m < k :: LeavesAlone(r, types, m)
    ensures Exhausted(r.states[k], types)
    decreases k
  {
    if i < k {
      ExhaustedStays(r, i, k - 1, types);
      assert LeavesAlone(r, types, k - 1);
      UntouchedStaysExhausted(r.states[k - 1], r.actions[k - 1], r.states[k], types);
    }
  }

  /**
   After a drain, whatever the clock says, nothing of these types is claimed
   until a job of these types is enqueued or finished by a holder.
   */
  lemma DrainedStaysDrained(r: Run, i: nat, k: nat, types: set<JobType>, stale: int)
    requires IsRun(r) && i <= k < |r.actions|
    requires DrainTest(Summarized(r.states[i].jobs, types, stale))
    requires forall m | i <= m <= k :: LeavesAlone(r, types, m)
    ensures !Touches(r.states[k], r.actions[k], types)
  {
    RunKeepsInv(r, i);
    DrainedMeansQuiescent(r.states[i].jobs, types, stale, 0);
    QuiescentIsExhausted(r.states[i], types, stale, 0);
    ExhaustedStays(r, i, k, types);
    assert LeavesAlone(r, types, k);
    UntouchedStaysExhausted(r.states[k], r.actions[k], r.states[k + 1], types);
  }

  // ---- The table ----

  function RevivedIds(jobs: map<JobId, Job>, ids: set<JobId>, requeueFailed: bool): set<JobId> {
    set id | id in ids && id in jobs && jobs[id].status == Failed && requeueFailed
  }

  function WithRows(jobs: map<JobId, Job>, ids: set<JobId>, rows: map<JobId, Job>): map<JobId, Job>
    requires ids <= rows.Keys
  {
    map id | id in jobs.Keys + ids :: if id in ids then rows[id] else jobs[id]
  }

  function Revived(jobs: map<JobId, Job>, ids: set<JobId>, maxAttempts: int): map<JobId, Job> {
    map id | id in jobs :: if id in ids then JobRows.Requeued(jobs[id], None, maxAttempts) else jobs[id]
  }

  /** Every named job is inserted if new, and otherwise treated as a single enqueue would. */
  function BulkEnqueued(jobs: map<JobId, Job>, ids: set<JobId>, rows: map<JobId, Job>, maxAttempts: int,
      requeueFailed: bool): map<JobId, Job>
    requires ids <= rows.Keys
  {
    map id | id in jobs.Keys + ids ::
      if id !in jobs then rows[id]
      else if id in ids then Enqueued(jobs[id], ArticleRequest(requeueFailed), None, maxAttempts)
      else jobs[id]
  }

  /** The two bulk statements act on each row as one single enqueue of it does. */
  lemma InsertThenRevive(jobs: map<JobId, Job>, ids: set<JobId>, rows: map<JobId, Job>, maxAttempts: int,
      requeueFailed: bool)
    requires ids <= rows.Keys && forall id | id in ids :: rows[id].status == Queued
    ensures var inserted := WithRows(jobs, ids - jobs.Keys, rows);
            && RevivedIds(inserted, ids, requeueFailed) == RevivedIds(jobs, ids, requeueFailed)
            && Revived(inserted, RevivedIds(jobs, ids, requeueFailed), maxAttempts)
            == BulkEnqueued(jobs, ids, rows, maxAttempts, requeueFailed)
  {
  }

  datatype EnqueueState = Inserted | Existing | Requeued

  class ArticleJobStore {
    var jobs: map<JobId, Job>

    constructor ()
      ensures jobs == map[]
    {
      jobs := map[];
    }

    /** `_enqueue_job`: insert, or act on the row that is already there. */
    method Enqueue(id: JobId, row: Job, request: Request, runAfter: Option<int>,
        maxAttempts: int) returns (state: EnqueueState)
      modifies this
      ensures jobs == old(jobs)
                [id := if id in old(jobs) then Enqueued(old(jobs)[id], request, runAfter, maxAttempts) else row]
      ensures state == Inserted <==> id !in old(jobs)
      ensures state == Existing <==> jobs == old(jobs)
    {
      if id !in jobs {
        jobs := jobs[id := row];
        return Inserted;
      }
      var j := jobs[id];
      if request == CaseRevision {
        var status := if j.status == Running then Running else Queued;
        var next := j.(requested := j.requested + 1, status := status, runAfter := runAfter);
        if j.status != Running {
          next := next.(attempts := 0, lockedAt := None);
        }
        jobs := jobs[id := next];
        return Requeued;
      }
      if request.EnsureCase? && j.status == Succeeded {
        jobs := jobs[id := JobRows.Requeued(j, runAfter, maxAttempts)];
        return Requeued;
      }
      if j.status != Failed || !request.requeueFailed {
        return Existing;
      }
      jobs := jobs[id := JobRows.Requeued(j, runAfter, maxAttempts)];
      state := Requeued;
    }

    /** The bulk insert of `enqueue_article_jobs`; rows that exist are left alone. */
    method InsertArticles(ids: seq<JobId>, rows: map<JobId, Job>) returns (added: set<JobId>)
      requires forall id | id in ids :: id in rows
      modifies this
      ensures added == Elements(ids) - old(jobs).Keys && added <= rows.Keys
      ensures jobs == WithRows(old(jobs), added, rows)
    {
      added := {};
      for i := 0 to |ids|
        invariant added == Elements(ids[..i]) - old(jobs).Keys && added <= rows.Keys
        invariant jobs == WithRows(old(jobs), added, rows)
      {
        assert Elements(ids[..i + 1]) == Elements(ids[..i]) + {ids[i]};
        if ids[i] !in jobs {
          jobs := jobs[ids[i] := rows[ids[i]]];
          added := added + {ids[i]};
        }
      }
      assert ids[..|ids|] == ids;
    }

    /** `enqueue_article_jobs`: one bulk insert, then one bulk revival of the failed rows. */
    method EnqueueArticles(ids: seq<JobId>, rows: map<JobId, Job>, maxAttempts: int, requeueFailed: bool)
      returns (inserted: nat, requeued: nat, existing: int)
      requires forall id | id in ids :: id in rows && rows[id].status == Queued
      modifies this
      ensures jobs == BulkEnqueued(old(jobs), Elements(ids), rows, maxAttempts, requeueFailed)
      ensures forall id | id in ids ::
                && id in jobs
                && (id !in old(jobs) ==> jobs[id] == rows[id])
                && (id in old(jobs) ==>
                      jobs[id] == Enqueued(old(jobs)[id], ArticleRequest(requeueFailed), None, maxAttempts))
      ensures forall id | id !in ids :: id in jobs <==> id in old(jobs)
      ensures forall id | id in jobs && id !in ids :: jobs[id] == old(jobs)[id]
      ensures inserted == |Elements(ids) - old(jobs).Keys|
      ensures requeued == |RevivedIds(old(jobs), Elements(ids), requeueFailed)|
      ensures existing == |ids| - inserted - requeued
    {
      var added := InsertArticles(ids, rows);
      var revived := RevivedIds(jobs, Elements(ids), requeueFailed);
      InsertThenRevive(old(jobs), Elements(ids), rows, maxAttempts, requeueFailed);
      jobs := Revived(jobs, revived, maxAttempts);
      inserted, requeued := |added|, |revived|;
      existing := |ids| - inserted - requeued;
    }

    function Claimable(types: set<JobType>, locked: set<JobId>, now: int, timeout: nat): (ids: set<JobId>)
      reads this
      ensures ids <= jobs.Keys
    {
      set id | id in jobs && id !in locked && jobs[id].jobType in types && Eligible(jobs[id], now, now - timeout)
    }

    /** `claim_next_job`; rows that another transaction has locked are skipped. */
    method ClaimNext(types: set<JobType>, locked: set<JobId>, now: int, timeout: nat) returns (claimed: Option<JobId>)
      modifies this
      ensures claimed.None? ==>
                && jobs == old(jobs)
                && forall id | id in jobs && id !in locked && jobs[id].jobType in types ::
                     !Eligible(jobs[id], now, now - timeout)
      ensures claimed.Some? ==>
                && claimed.value in old(jobs) && claimed.value !in locked
                && old(jobs)[claimed.value].jobType in types
                && Eligible(old(jobs)[claimed.value], now, now - timeout)
                && ClaimedFirst(old(jobs), old(Claimable(types, locked, now, timeout)), claimed.value)
                && jobs == old(jobs)[claimed.value := Claimed(old(jobs)[claimed.value], now)]
    {
      var ids := Claimable(types, locked, now, timeout);
      if ids == {} {
        assert forall id | id in jobs && id !in locked && jobs[id].jobType in types :: id !in ids;
        return None;
      }
      var first := FirstInOrder(jobs, ids);
      jobs := jobs[first := Claimed(jobs[first], now)];
      claimed := Some(first);
    }

    /** `complete_job`: a newer request requeues the row instead of closing it. */
    method CompleteJob(id: JobId, revision: int, now: int)
      requires id in jobs
      modifies this
      ensures jobs == old(jobs)[id := Completed(old(jobs)[id], Processed(old(jobs)[id], revision), now)]
    {
      var j := jobs[id];
      if !j.isCase {
        jobs := jobs[id := j.(status := Succeeded, completed := j.requested, lockedAt := None)];
        return;
      }
      var newer := j.requested > revision;
      jobs := jobs[id := j.(status := if newer then Queued else Succeeded, completed := revision, lockedAt := None)];
      if newer {
        jobs := jobs[id := jobs[id].(runAfter := Some(now), attempts := 0)];
      }
    }

    /**
     `fail_job`, with the counts the worker was handed. Unless a newer revision is found
     the row is closed by the last attempt handed out, and by no other.
     */
    method FailJob(id: JobId, revision: int, attempt: int, limit: int, now: int, retryAt: int)
      requires id in jobs
      modifies this
      ensures jobs.Keys == old(jobs).Keys
      ensures forall other | other in jobs && other != id :: jobs[other] == old(jobs)[other]
      ensures !(old(jobs)[id].isCase && old(jobs)[id].requested > revision) ==>
                && (jobs[id].status == Failed <==> attempt >= limit)
                && jobs[id].attempts == old(jobs)[id].attempts
                && (attempt >= limit ==> jobs[id].runAfter == old(jobs)[id].runAfter)
                && (attempt < limit && jobs[id].attempts < jobs[id].maxAttempts ==>
                      forall t, staleBefore :: t >= retryAt <==> Eligible(jobs[id], t, staleBefore))
      ensures jobs == old(jobs)[id :=
          FailedBy(old(jobs)[id], Processed(old(jobs)[id], revision), attempt, limit, now, retryAt)]
    {
      var j := jobs[id];
      var exhausted := attempt >= limit;
      var next := j.(status := if exhausted then Failed else Queued, lockedAt := None);
      if !exhausted {
        next := next.(runAfter := Some(retryAt));
      }
      if j.isCase && j.requested > revision {
        next := next.(status := Queued, attempts := 0, runAfter := Some(now));
      }
      jobs := jobs[id := next];
    }

    /**
     `defer_job`. A running row is queued until `runAfter` with one attempt more to
     use; a holder that is too late changes nothing; a sound row stays sound.
     */
    method DeferJob(id: JobId, runAfter: int)
      requires id in jobs
      modifies this
      ensures old(jobs)[id].status != Running ==> jobs == old(jobs)
      ensures old(jobs)[id].status == Running ==>
                && jobs.Keys == old(jobs).Keys
                && (forall other | other in jobs && other != id :: jobs[other] == old(jobs)[other])
                && jobs[id].maxAttempts - jobs[id].attempts == old(jobs)[id].maxAttempts - old(jobs)[id].attempts + 1
                && (RowInv(old(jobs)[id]) ==>
                      forall t, staleBefore :: t >= runAfter <==> Eligible(jobs[id], t, staleBefore))
      ensures RowInv(old(jobs)[id]) ==> RowInv(jobs[id])
      ensures jobs == old(jobs)[id := Deferred(old(jobs)[id], runAfter)]
    {
      if jobs[id].status == Running {
        var j := jobs[id];
        var released := j.(status := Queued, attempts := j.attempts - 1, runAfter := Some(runAfter), lockedAt := None);
        jobs := jobs[id := released];
      }
    }
  }

  method FirstInOrder(jobs: map<JobId, Job>, ids: set<JobId>) returns (first: JobId)
    requires ids != {} && ids <= jobs.Keys
    ensures ClaimedFirst(jobs, ids, first)
  {
    first :| first in ids;
    var todo := ids - {first};
    LexTotal(SortKey(jobs[first]), SortKey(jobs[first]));
    while todo != {}
      invariant todo <= ids
      invariant ClaimedFirst(jobs, ids - todo, first)
    {
      var next :| next in todo;
      ghost var done := ids - todo;
      if !LexLeq(SortKey(jobs[first]), SortKey(jobs[next])) {
        forall other | other in done
          ensures LexLeq(SortKey(jobs[next]), SortKey(jobs[other]))
        {
          LexTotal(SortKey(jobs[first]), SortKey(jobs[next]));
          LexTransitive(SortKey(jobs[next]), SortKey(jobs[first]), SortKey(jobs[other]));
        }
        LexTotal(SortKey(jobs[next]), SortKey(jobs[next]));
        first := next;
      }
      todo := todo - {next};
      assert ids - todo == done + {next};
    }
    assert ids - todo == ids;
  }
}
