/**
 The round-robin scan for the next job, and how long a job type can be kept
 waiting. Every cycle has its own executor, and so starts the round again.
 */
module Schedule {
  import opened Collections
  import opened JobTypes
  import opened Wrappers

  const JOB_TYPE_SCHEDULE: seq<JobType> := [
    GateArticle, CreateArticleCard, RefreshCase, AuditCaseCoherence, AuditCasePublicInterest, AuditCaseDuplicates,
    ResolveArticleCases, ResolveArticleEntities, ResolveArticleEvents, ClassifyArticle]

  function Selected(schedule: seq<JobType>, types: set<JobType>): seq<JobType> {
    if schedule == [] then []
    else (if schedule[0] in types then [schedule[0]] else []) + Selected(schedule[1..], types)
  }

  lemma {:induction false} SelectedHoldsTypes(schedule: seq<JobType>, types: set<JobType>)
    ensures forall t :: t in Selected(schedule, types) <==> t in schedule && t in types
  {
    if schedule != [] {
      SelectedHoldsTypes(schedule[1..], types);
      assert schedule == [schedule[0]] + schedule[1..];
    }
  }

  lemma {:induction false} SelectedStaysDistinct(schedule: seq<JobType>, types: set<JobType>)
    requires Distinct(schedule)
    ensures Distinct(Selected(schedule, types))
  {
    if schedule != [] {
      SelectedStaysDistinct(schedule[1..], types);
      SelectedHoldsTypes(schedule[1..], types);
      assert schedule == [schedule[0]] + schedule[1..];
      DistinctConcat([schedule[0]], schedule[1..]);
      DistinctConcat(if schedule[0] in types then [schedule[0]] else [], Selected(schedule[1..], types));
    }
  }

  lemma {:induction false} SelectedKeepsOrder(schedule: seq<JobType>, types: set<JobType>, i: nat, j: nat)
    returns (m: nat, n: nat)
    requires i < j < |Selected(schedule, types)|
    ensures m < n < |schedule|
    ensures schedule[m] == Selected(schedule, types)[i] && schedule[n] == Selected(schedule, types)[j]
  {
    var rest := Selected(schedule[1..], types);
    if schedule[0] !in types {
      m, n := SelectedKeepsOrder(schedule[1..], types, i, j);
      m, n := m + 1, n + 1;
    } else if i > 0 {
      m, n := SelectedKeepsOrder(schedule[1..], types, i - 1, j - 1);
      m, n := m + 1, n + 1;
    } else {
      SelectedHoldsTypes(schedule[1..], types);
      assert rest[j - 1] in schedule[1..];
      var p :| 0 <= p < |schedule[1..]| && schedule[1..][p] == rest[j - 1];
      m, n := 0, p + 1;
    }
  }

  predicate ComesBefore(schedule: seq<JobType>, x: JobType, y: JobType) {
    exists m, n :: 0 <= m < n < |schedule| && schedule[m] == x && schedule[n] == y
  }

  /** Whatever types a cycle serves, its schedule names each of them once, in the order of the whole schedule. */
  lemma ServedScheduleIsDistinct(types: set<JobType>)
    ensures var served := Selected(JOB_TYPE_SCHEDULE, types);
            && Distinct(served)
            && (forall t :: t in served <==> t in JOB_TYPE_SCHEDULE && t in types)
            && forall i, j | 0 <= i < j < |served| :: ComesBefore(JOB_TYPE_SCHEDULE, served[i], served[j])
  {
    var schedule := JOB_TYPE_SCHEDULE;
    SelectedStaysDistinct(schedule, types);
    SelectedHoldsTypes(schedule, types);
    forall i, j | 0 <= i < j < |Selected(schedule, types)|
      ensures ComesBefore(schedule, Selected(schedule, types)[i], Selected(schedule, types)[j])
    {
      var m, n := SelectedKeepsOrder(schedule, types, i, j);
    }
  }

  /** The position `k` places after `index`, going round. */
  function Around(index: nat, k: nat, n: nat): (position: nat)
    requires index < n && k <= n
    ensures position < n
  {
    if index + k < n then index + k else index + k - n
  }

  lemma AroundIsModulo(index: nat, k: nat, n: nat)
    requires index < n && k < n
    ensures (Around(index, k, n) + 1) % n == Around(index, k + 1, n)
  {
  }

  /** How many places after `index` position `p` comes. */
  function Distance(index: nat, p: nat, n: nat): (d: nat)
    requires index < n && p < n
    ensures d < n && Around(index, d, n) == p
  {
    if p >= index then p - index else p + n - index
  }

  /** One scan: where it starts, and the types whose probe finds an eligible job. */
  datatype Scan = Scan(index: nat, eligible: set<JobType>)

  /** The type that the `k`-th probe asks for. */
  function Probed(schedule: seq<JobType>, index: nat, k: nat): JobType
    requires index < |schedule| && k < |schedule|
  {
    schedule[Around(index, k, |schedule|)]
  }

  /** Probe `k` is the first to find a job; its type is claimed, and the next scan starts just behind it. */
  predicate Claims(schedule: seq<JobType>, scan: Scan, k: nat, claimed: JobType, next: nat) {
    && scan.index < |schedule| && k < |schedule|
    && claimed == Probed(schedule, scan.index, k) && claimed in scan.eligible
    && (forall j | 0 <= j < k :: Probed(schedule, scan.index, j) !in scan.eligible)
    && next == Around(scan.index, k + 1, |schedule|)
  }

  function Attempted(schedule: seq<JobType>, index: nat, k: nat): set<JobType>
    requires index < |schedule| && k <= |schedule|
  {
    if k == 0 then {} else Attempted(schedule, index, k - 1) + {Probed(schedule, index, k - 1)}
  }

  /** A probe asks for a type that none of the scan's earlier probes asked for. */
  lemma {:induction false} ProbeIsNew(schedule: seq<JobType>, index: nat, m: nat, k: nat)
    requires Distinct(schedule) && index < |schedule| && m <= k < |schedule|
    ensures Probed(schedule, index, k) !in Attempted(schedule, index, m)
  {
    if m > 0 {
      ProbeIsNew(schedule, index, m - 1, k);
      var a, b := Around(index, m - 1, |schedule|), Around(index, k, |schedule|);
      assert schedule[if a < b then a else b] != schedule[if a < b then b else a];
    }
  }

  lemma {:induction false} AttemptedAreMany(schedule: seq<JobType>, index: nat, k: nat)
    requires Distinct(schedule) && index < |schedule| && k <= |schedule|
    ensures |Attempted(schedule, index, k)| == k
  {
    if k > 0 {
      AttemptedAreMany(schedule, index, k - 1);
      ProbeIsNew(schedule, index, k - 1, k - 1);
    }
  }

  /** What one turn of the scan's loop needs: the type is new, and the index moves on by one, going round. */
  lemma NextProbe(schedule: seq<JobType>, index: nat, k: nat)
    requires Distinct(schedule) && index < |schedule| && k < |schedule|
    ensures Probed(schedule, index, k) !in Attempted(schedule, index, k)
    ensures |Attempted(schedule, index, k)| == k && |Attempted(schedule, index, k + 1)| == k + 1
    ensures (Around(index, k, |schedule|) + 1) % |schedule| == Around(index, k + 1, |schedule|)
  {
    AroundIsModulo(index, k, |schedule|);
    ProbeIsNew(schedule, index, k, k);
    AttemptedAreMany(schedule, index, k);
    AttemptedAreMany(schedule, index, k + 1);
  }

  class CycleExecutor {
    const schedule: seq<JobType>
    const claimBatchSize: int
    var scheduleIndex: nat
    var claimedJobs: nat
    var stopClaiming: bool

    constructor (types: set<JobType>, claimBatchSize: int)
      ensures schedule == Selected(JOB_TYPE_SCHEDULE, types) && this.claimBatchSize == claimBatchSize
      ensures Valid() && scheduleIndex == 0 && claimedJobs == 0 && !stopClaiming
    {
      schedule := Selected(JOB_TYPE_SCHEDULE, types);
      this.claimBatchSize := claimBatchSize;
      scheduleIndex, claimedJobs, stopClaiming := 0, 0, false;
      ServedScheduleIsDistinct(types);
    }

    ghost predicate Valid()
      reads this
    {
      Distinct(schedule) && (schedule != [] ==> scheduleIndex < |schedule|)
    }

    /**
     `_claim_next`; `eligible` are the types whose probe in this scan finds a job. It
     claims the first of them in schedule order from the current index. An exhausted
     scan has probed every type, and leaves the index where it was.
     */
    method ClaimNext(eligible: set<JobType>) returns (claimed: Option<JobType>, probes: nat)
      requires Valid()
      modifies this`scheduleIndex, this`claimedJobs
      ensures Valid()
      ensures claimedJobs == old(claimedJobs) + if claimed.Some? then 1 else 0
      ensures claimed.Some? ==> !stopClaiming && claimedJobs <= claimBatchSize && probes >= 1
      ensures claimed.Some? ==>
                Claims(schedule, Scan(old(scheduleIndex), eligible), probes - 1, claimed.value, scheduleIndex)
      ensures claimed.None? ==>
                && scheduleIndex == old(scheduleIndex)
                && (stopClaiming || claimedJobs >= claimBatchSize || forall t | t in schedule :: t !in eligible)
    {
      if stopClaiming || claimedJobs >= claimBatchSize || schedule == [] {
        return None, 0;
      }
      claimed, probes := Probe(eligible);
      if claimed.Some? {
        claimedJobs := claimedJobs + 1;
      }
    }

    /** The loop of the scan. */
    method Probe(eligible: set<JobType>) returns (claimed: Option<JobType>, probes: nat)
      requires Valid() && schedule != []
      modifies this`scheduleIndex
      ensures Valid()
      ensures claimed.Some? ==>
                && probes >= 1
                && Claims(schedule, Scan(old(scheduleIndex), eligible), probes - 1, claimed.value, scheduleIndex)
      ensures claimed.None? ==> scheduleIndex == old(scheduleIndex) && forall t | t in schedule :: t !in eligible
    {
      ghost var start := scheduleIndex;
      var attempted: set<JobType> := {};
      probes := 0;
      while |attempted| < |schedule|
        invariant probes <= |schedule| && |attempted| == probes
        invariant scheduleIndex == Around(start, probes, |schedule|)
        invariant attempted == Attempted(schedule, start, probes)
        invariant forall k | 0 <= k < probes :: Probed(schedule, start, k) !in eligible
        decreases |schedule| - probes
      {
        NextProbe(schedule, start, probes);
        var jobType := schedule[scheduleIndex];
        scheduleIndex := (scheduleIndex + 1) % |schedule|;
        assert jobType !in attempted;  // no type comes up twice in one scan
        attempted := attempted + {jobType};
        probes := probes + 1;
        if jobType in eligible {
          return Some(jobType), probes;
        }
      }
      AllProbed(schedule, start, eligible);
      claimed := None;
    }

    /** The claims of one cycle, in the order in which its workers get the claim lock. */
    method ServeCycle(eligible: seq<set<JobType>>) returns (claimed: seq<JobType>, ghost log: seq<Claim>)
      requires Valid() && scheduleIndex == 0 && claimedJobs == 0 && !stopClaiming && |eligible| >= claimBatchSize
      modifies this`scheduleIndex, this`claimedJobs
      ensures Records(schedule, eligible, claimed, log)
      ensures forall p | 0 <= p < |schedule| && p < claimBatchSize && (forall e | e in eligible :: schedule[p] in e) ::
                schedule[p] in claimed
    {
      claimed, log := [], [];
      var over := false;
      while !over && |claimed| < |eligible|
        invariant Valid() && Records(schedule, eligible, claimed, log) && |log| == claimedJobs
        invariant schedule != [] ==> scheduleIndex == NextIndex(schedule, log)
        invariant over ==> claimedJobs >= claimBatchSize || FindsNothing(schedule, eligible, |claimed|)
        decreases |eligible| - |claimed|, !over
      {
        ghost var scan := Scan(scheduleIndex, eligible[|claimed|]);
        var jobType, probes := ClaimNext(eligible[|claimed|]);
        if jobType.Some? {
          RecordsOneMore(schedule, eligible, claimed, log, Claim(scan, probes - 1, jobType.value));
          claimed, log := claimed + [jobType.value], log + [Claim(scan, probes - 1, jobType.value)];
        } else {
          over := true;
        }
      }
      forall p | 0 <= p < |schedule| && p < claimBatchSize && (forall e | e in eligible :: schedule[p] in e)
        ensures schedule[p] in claimed
      {
        RecordedIsServed(schedule, eligible, claimed, log, claimBatchSize, p);
      }
    }
  }

  /** The claims of a cycle, one a scan, with what each scan could find. */
  ghost predicate Records(schedule: seq<JobType>, eligible: seq<set<JobType>>, claimed: seq<JobType>, log: seq<Claim>) {
    && IsCycle(schedule, log) && |claimed| == |log| <= |eligible|
    && forall j | 0 <= j < |log| :: log[j].jobType == claimed[j] && log[j].scan.eligible == eligible[j]
  }

  predicate FindsNothing(schedule: seq<JobType>, eligible: seq<set<JobType>>, j: nat) {
    j < |eligible| && forall t | t in schedule :: t !in eligible[j]
  }

  lemma RecordsOneMore(schedule: seq<JobType>, eligible: seq<set<JobType>>, claimed: seq<JobType>, log: seq<Claim>,
      c: Claim)
    requires Records(schedule, eligible, claimed, log) && |log| < |eligible| && c.scan.eligible == eligible[|log|]
    requires c.scan.index == NextIndex(schedule, log) && c.scan.index < |schedule| && c.hit < |schedule|
    requires Claims(schedule, c.scan, c.hit, c.jobType, Behind(schedule, c))
    ensures Records(schedule, eligible, claimed + [c.jobType], log + [c])
    ensures NextIndex(schedule, log + [c]) == Behind(schedule, c)
  {
    ClaimExtendsCycle(schedule, log, c);
  }

  lemma RecordedIsServed(schedule: seq<JobType>, eligible: seq<set<JobType>>, claimed: seq<JobType>, log: seq<Claim>,
      batch: int, p: nat)
    requires Records(schedule, eligible, claimed, log) && p < |schedule| && p < batch
    requires |log| >= batch || FindsNothing(schedule, eligible, |claimed|)
    requires forall e | e in eligible :: schedule[p] in e
    ensures schedule[p] in claimed
  {
    assert forall j | 0 <= j < |eligible| :: eligible[j] in eligible;
    assert schedule[p] in schedule;
    ServedWithinTheBatch(schedule, log, p);
  }

  lemma AllProbed(schedule: seq<JobType>, index: nat, eligible: set<JobType>)
    requires index < |schedule| && forall k | 0 <= k < |schedule| :: Probed(schedule, index, k) !in eligible
    ensures forall t | t in schedule :: t !in eligible
  {
    forall t | t in schedule ensures t !in eligible {
      var p :| 0 <= p < |schedule| && schedule[p] == t;
      assert Probed(schedule, index, Distance(index, p, |schedule|)) == t;
    }
  }

  // ---- Bounded waiting ----

  /** A scan that claimed: the number of the probe, and the type of the job. */
  datatype Claim = Claim(scan: Scan, hit: nat, jobType: JobType)

  /** Where the scan behind a claim starts. */
  function Behind(schedule: seq<JobType>, c: Claim): nat
    requires c.scan.index < |schedule| && c.hit < |schedule|
  {
    Around(c.scan.index, c.hit + 1, |schedule|)
  }

  /** Consecutive claims of one cycle. */
  predicate Consecutive(schedule: seq<JobType>, log: seq<Claim>) {
    && (forall j | 0 <= j < |log| ::
          && log[j].scan.index < |schedule| && log[j].hit < |schedule|
          && Claims(schedule, log[j].scan, log[j].hit, log[j].jobType, Behind(schedule, log[j])))
    && (forall j {:trigger log[j]} | 0 < j < |log| :: log[j].scan.index == Behind(schedule, log[j - 1]))
  }

  /** All claims of a cycle so far: the first scan starts the round. */
  predicate IsCycle(schedule: seq<JobType>, log: seq<Claim>) {
    Consecutive(schedule, log) && (log != [] ==> log[0].scan.index == 0)
  }

  function NextIndex(schedule: seq<JobType>, log: seq<Claim>): nat
    requires Consecutive(schedule, log)
  {
    if log == [] then 0 else Behind(schedule, log[|log| - 1])
  }

  /** A claim at the index that a cycle has reached continues the cycle. */
  lemma ClaimExtendsCycle(schedule: seq<JobType>, log: seq<Claim>, c: Claim)
    requires IsCycle(schedule, log) && c.scan.index == NextIndex(schedule, log)
    requires c.scan.index < |schedule| && c.hit < |schedule|
    requires Claims(schedule, c.scan, c.hit, c.jobType, Behind(schedule, c))
    ensures IsCycle(schedule, log + [c]) && NextIndex(schedule, log + [c]) == Behind(schedule, c)
  {
    var longer := log + [c];
    assert forall j | 0 <= j < |log| :: longer[j] == log[j];
  }

  /** At each of these claims the type at position `p` has an eligible job, and yet another type is claimed. */
  predicate PassesOver(schedule: seq<JobType>, log: seq<Claim>, p: nat) {
    && p < |schedule| && Consecutive(schedule, log)
    && forall j | 0 <= j < |log| :: schedule[p] in log[j].scan.eligible && log[j].jobType != schedule[p]
  }

  lemma {:induction false} WaitingShrinks(schedule: seq<JobType>, log: seq<Claim>, p: nat, j: nat)
    requires PassesOver(schedule, log, p) && j < |log|
    ensures log[j].hit < Distance(log[j].scan.index, p, |schedule|)
    ensures Distance(log[j].scan.index, p, |schedule|) + j <= Distance(log[0].scan.index, p, |schedule|)
  {
    var d := Distance(log[j].scan.index, p, |schedule|);
    assert Probed(schedule, log[j].scan.index, d) == schedule[p];
    if j > 0 {
      WaitingShrinks(schedule, log, p, j - 1);
      assert log[j].scan.index == Behind(schedule, log[j - 1]);
    }
  }

  /**
   While a type has an eligible job at each scan of a cycle, fewer jobs of other
   types are claimed before one of it than the schedule has types.
   */
  lemma WaitIsBounded(schedule: seq<JobType>, log: seq<Claim>, p: nat)
    requires PassesOver(schedule, log, p)
    ensures |log| < |schedule|
    ensures log != [] ==> |log| <= Distance(log[0].scan.index, p, |schedule|)
  {
    if log != [] {
      WaitingShrinks(schedule, log, p, |log| - 1);
    }
  }

  // ---- Across cycles ----

  /** A cycle that claims more jobs than the type's position serves the type, if it has a job at each scan. */
  lemma ServedWithinTheBatch(schedule: seq<JobType>, log: seq<Claim>, p: nat)
    requires IsCycle(schedule, log) && p < |schedule| && p < |log|
    requires forall j | 0 <= j < |log| :: schedule[p] in log[j].scan.eligible
    ensures exists j :: 0 <= j < |log| && log[j].jobType == schedule[p]
  {
    if forall j | 0 <= j < |log| :: log[j].jobType != schedule[p] {
      WaitIsBounded(schedule, log, p);
    }
  }

  /** Whatever jobs there are, a cycle of `batch` claims serves a type that has a job at each scan. */
  ghost predicate AlwaysServed(schedule: seq<JobType>, batch: nat, p: nat)
    requires p < |schedule|
  {
    forall log: seq<Claim> |
      IsCycle(schedule, log) && |log| == batch && (forall j | 0 <= j < batch :: schedule[p] in log[j].scan.eligible) ::
      exists j :: 0 <= j < batch && log[j].jobType == schedule[p]
  }

  /** A round in which every type always has a job: each is claimed in its turn. */
  function FullRound(schedule: seq<JobType>, batch: nat): seq<Claim>
    requires batch <= |schedule|
  {
    seq(batch, j requires 0 <= j < batch => Claim(Scan(j, Elements(schedule)), 0, schedule[j]))
  }

  lemma TurnOf(schedule: seq<JobType>, batch: nat, j: nat, p: nat)
    requires j < batch <= |schedule| && p < |schedule|
    ensures var c := FullRound(schedule, batch)[j];
            && c.scan.index == j && c.hit == 0 && c.jobType == schedule[j] && schedule[p] in c.scan.eligible
  {
    assert schedule[p] in schedule && schedule[j] in schedule;
    assert schedule[p] in Elements(schedule) && schedule[j] in Elements(schedule);
  }

  lemma FullRoundIsACycle(schedule: seq<JobType>, batch: nat)
    requires batch <= |schedule|
    ensures IsCycle(schedule, FullRound(schedule, batch))
  {
    var log := FullRound(schedule, batch);
    forall j | 0 <= j < batch
      ensures log[j].scan.index == j && log[j].hit == 0 && log[j].jobType == schedule[j]
      ensures schedule[j] in log[j].scan.eligible
    {
      TurnOf(schedule, batch, j, j);
    }
  }

  /** A smaller batch goes to the types in front of position `p`. */
  lemma FullRoundMisses(schedule: seq<JobType>, batch: nat, p: nat)
    requires Distinct(schedule) && batch <= p < |schedule|
    ensures PassesOver(schedule, FullRound(schedule, batch), p)
  {
    var log := FullRound(schedule, batch);
    FullRoundIsACycle(schedule, batch);
    forall j | 0 <= j < batch ensures schedule[p] in log[j].scan.eligible && log[j].jobType != schedule[p] {
      TurnOf(schedule, batch, j, p);
    }
  }

  /**
   A type is certain to be served in a cycle that is not stopped exactly when the
   batch is larger than its position; with a smaller batch, types in front of it can
   keep it waiting in every cycle.
   */
  lemma ServedIffBatchExceedsPosition(schedule: seq<JobType>, batch: nat, p: nat)
    requires Distinct(schedule) && p < |schedule|
    ensures AlwaysServed(schedule, batch, p) <==> batch > p
  {
    if batch > p {
      forall log: seq<Claim> | IsCycle(schedule, log) && |log| == batch
                && (forall j | 0 <= j < batch :: schedule[p] in log[j].scan.eligible)
        ensures exists j :: 0 <= j < batch && log[j].jobType == schedule[p]
      {
        ServedWithinTheBatch(schedule, log, p);
      }
    } else {
      FullRoundIsACycle(schedule, batch);
      FullRoundMisses(schedule, batch, p);
      var log := FullRound(schedule, batch);
      assert IsCycle(schedule, log) && |log| == batch;
    }
  }

  /** The bound on waiting is met: the last type waits for all the others. */
  lemma WaitCanBeFull(schedule: seq<JobType>, last: nat)
    requires Distinct(schedule) && last + 1 == |schedule|
    ensures exists log :: PassesOver(schedule, log, last) && |log| == last
  {
    FullRoundMisses(schedule, last, last);
  }
}
