/**
 Every interleaving of the workers of one cycle: they claim under a lock, run at
 most one job per mutation namespace, and stop claiming together on a rate limit
 or an unavailable dependency.
 */
module Executor {
  import opened JobTypes
  import opened Wrappers

  datatype Namespace = CaseNamespace | EntityNamespace | EventNamespace

  function NamespaceOf(jobType: JobType): Option<Namespace> {
    match jobType
    case ResolveArticleCases | RefreshCase | AuditCaseCoherence => Some(CaseNamespace)
    case ResolveArticleEntities => Some(EntityNamespace)
    case ResolveArticleEvents => Some(EventNamespace)
    case _ => None
  }

  /** A claimed job: the number of its claim in this cycle, and its type. */
  datatype Claim = Claim(number: nat, jobType: JobType)

  /** Where a worker is in its loop. */
  datatype Pc =
    | AtLoop
    | AtClaimLock
    | Scanning(probes: nat)
    | AtNamespace(claim: Claim)
    | Executing(claim: Claim)
    | AtRateLock(claim: Claim)
    | Recording(claim: Claim)
    | Finished

  datatype Outcome = Completed | Failed | Deferred | RateLimited(resumeAt: int)

  datatype Exec = Exec(
    types: nat,
    batch: int,
    workers: seq<Pc>,
    stop: bool,
    claimed: nat,
    resumeAt: Option<int>,
    cooldowns: nat,
    outcomes: map<nat, Outcome>,
    processed: nat,
    failed: nat)

  datatype Action =
    | CheckStop
    | EnterClaim
    | Probe(jobType: Option<JobType>)
    | EnterNamespace
    | End(outcome: Outcome, stopping: bool)
    | HitRateLimit
    | EnterRateLock
    | Record(cooldownUntil: int)

  predicate Scans(e: Exec) {
    exists w | 0 <= w < |e.workers| :: e.workers[w].Scanning?
  }

  predicate Records(e: Exec) {
    exists w | 0 <= w < |e.workers| :: e.workers[w].Recording?
  }

  /** Holding the namespace semaphore of the claim: from entering it until the job ends. */
  predicate Running(pc: Pc) {
    pc.Executing? || pc.AtRateLock? || pc.Recording?
  }

  predicate Occupies(pc: Pc, ns: Namespace) {
    Running(pc) && NamespaceOf(pc.claim.jobType) == Some(ns)
  }

  predicate Occupied(e: Exec, ns: Namespace) {
    exists w | 0 <= w < |e.workers| :: Occupies(e.workers[w], ns)
  }

  function Moved(e: Exec, w: nat, pc: Pc): Exec
    requires w < |e.workers|
  {
    e.(workers := e.workers[w := pc])
  }

  ghost predicate Init(e: Exec) {
    && (forall w | 0 <= w < |e.workers| :: e.workers[w] == AtLoop)
    && !e.stop && e.claimed == 0 && e.resumeAt.None? && e.cooldowns == 0 && e.outcomes == map[]
    && e.processed == 0 && e.failed == 0
  }

  ghost predicate Next(e: Exec, w: nat, action: Action, e': Exec) {
    w < |e.workers| &&
    var pc := e.workers[w];
    match action
    case CheckStop =>
      pc.AtLoop? && e' == Moved(e, w, if e.stop then Finished else AtClaimLock)
    case EnterClaim =>
      && pc.AtClaimLock? && !Scans(e)
      && e' == Moved(e, w, if e.stop || e.claimed >= e.batch then Finished else Scanning(0))
    case Probe(jobType) =>
      && pc.Scanning?
      && if pc.probes >= e.types then e' == Moved(e, w, Finished)
         else if jobType.None? then e' == Moved(e, w, Scanning(pc.probes + 1))
         else e' == Moved(e, w, AtNamespace(Claim(e.claimed, jobType.value))).(claimed := e.claimed + 1)
    case EnterNamespace =>
      && pc.AtNamespace?
      && (NamespaceOf(pc.claim.jobType).Some? ==> !Occupied(e, NamespaceOf(pc.claim.jobType).value))
      && e' == Moved(e, w, Executing(pc.claim))
    case End(outcome, stopping) =>
      && pc.Executing? && !outcome.RateLimited? && (stopping ==> outcome == Deferred)
      && e' == Moved(e, w, AtLoop).(stop := e.stop || stopping,
                                    outcomes := e.outcomes[pc.claim.number := outcome],
                                    processed := e.processed + if outcome.Completed? then 1 else 0,
                                    failed := e.failed + if outcome.Failed? then 1 else 0)
    case HitRateLimit =>
      pc.Executing? && e' == Moved(e, w, AtRateLock(pc.claim)).(stop := true)
    case EnterRateLock =>
      pc.AtRateLock? && !Records(e) && e' == Moved(e, w, Recording(pc.claim))
    case Record(cooldownUntil) =>
      && pc.Recording?
      && var resumeAt := if e.resumeAt.Some? then e.resumeAt.value else cooldownUntil;
         e' == Moved(e, w, AtLoop).(resumeAt := Some(resumeAt),
                                    cooldowns := e.cooldowns + if e.resumeAt.Some? then 0 else 1,
                                    outcomes := e.outcomes[pc.claim.number := RateLimited(resumeAt)])
  }

  datatype Run = Run(states: seq<Exec>, movers: seq<nat>, actions: seq<Action>)

  ghost predicate IsRun(r: Run) {
    && |r.states| == |r.actions| + 1 && |r.movers| == |r.actions|
    && Init(r.states[0])
    && forall i {:trigger r.actions[i]} | 0 <= i < |r.actions| ::
        Next(r.states[i], r.movers[i], r.actions[i], r.states[i + 1])
  }

  // ---- The invariant ----

  predicate Holds(pc: Pc) {
    pc.AtNamespace? || Running(pc)
  }

  /** At most one worker runs a job of the namespace. */
  predicate Exclusive(e: Exec, ns: Namespace) {
    forall v, w | 0 <= v < w < |e.workers| :: !(Occupies(e.workers[v], ns) && Occupies(e.workers[w], ns))
  }

  ghost predicate LocksInv(e: Exec) {
    && (forall v, w | 0 <= v < w < |e.workers| :: !(e.workers[v].Scanning? && e.workers[w].Scanning?))
    && (forall v, w | 0 <= v < w < |e.workers| :: !(e.workers[v].Recording? && e.workers[w].Recording?))
    && (forall ns :: Exclusive(e, ns))
  }

  ghost predicate ClaimsInv(e: Exec) {
    && (forall w | 0 <= w < |e.workers| && e.workers[w].Scanning? ::
          e.claimed < e.batch && e.workers[w].probes <= e.types)
    && (e.claimed <= e.batch || e.claimed == 0)
  }

  predicate HasClaim(e: Exec, w: nat, n: nat) {
    w < |e.workers| && Holds(e.workers[w]) && e.workers[w].claim.number == n
  }

  /** A claim in a worker's hands is one that was made and has no outcome, and is in no other worker's hands. */
  ghost predicate HandsInv(e: Exec) {
    && (forall n | n in e.outcomes :: n < e.claimed)
    && (forall w: nat, n: nat | HasClaim(e, w, n) :: n < e.claimed && n !in e.outcomes)
    && (forall v: nat, w: nat, n: nat | HasClaim(e, v, n) && HasClaim(e, w, n) :: v == w)
  }

  predicate AccountedFor(e: Exec, n: nat) {
    n in e.outcomes || exists w | 0 <= w < |e.workers| :: HasClaim(e, w, n)
  }

  /** Each claim made so far has an outcome or is in some worker's hands. */
  ghost predicate LedgerInv(e: Exec) {
    forall n: nat | n < e.claimed :: AccountedFor(e, n)
  }

  function Ended(e: Exec, outcome: Outcome): set<nat> {
    set n | n in e.outcomes && e.outcomes[n] == outcome
  }

  ghost predicate CountersInv(e: Exec) {
    e.processed == |Ended(e, Completed)| && e.failed == |Ended(e, Failed)|
  }

  ghost predicate CooldownInv(e: Exec) {
    && e.cooldowns == (if e.resumeAt.Some? then 1 else 0)
    && (forall n | n in e.outcomes && e.outcomes[n].RateLimited? :: e.resumeAt == Some(e.outcomes[n].resumeAt))
  }

  ghost predicate Inv(e: Exec) {
    LocksInv(e) && ClaimsInv(e) && HandsInv(e) && LedgerInv(e) && CountersInv(e) && CooldownInv(e)
  }

  lemma StepKeepsExclusion(e: Exec, w: nat, action: Action, e': Exec, ns: Namespace)
    requires Exclusive(e, ns) && Next(e, w, action, e')
    ensures Exclusive(e', ns)
  {
    forall u | 0 <= u < |e'.workers| && u != w ensures e'.workers[u] == e.workers[u] {}
    if Occupies(e'.workers[w], ns) && !Occupies(e.workers[w], ns) {
      assert action.EnterNamespace? && !Occupied(e, ns);
    }
  }

  lemma StepKeepsLocks(e: Exec, w: nat, action: Action, e': Exec)
    requires LocksInv(e) && Next(e, w, action, e')
    ensures LocksInv(e')
  {
    forall ns ensures Exclusive(e', ns) {
      StepKeepsExclusion(e, w, action, e', ns);
    }
  }

  lemma StepKeepsClaims(e: Exec, w: nat, action: Action, e': Exec)
    requires LocksInv(e) && ClaimsInv(e) && Next(e, w, action, e')
    ensures ClaimsInv(e')
  {
  }

  lemma StepOriginOfClaim(e: Exec, w: nat, action: Action, e': Exec, v: nat, n: nat)
    requires HandsInv(e) && Next(e, w, action, e') && HasClaim(e', v, n)
    ensures HasClaim(e, v, n) || (v == w && n == e.claimed)
    ensures n < e'.claimed && n !in e'.outcomes
  {
    if v != w {
      assert HasClaim(e, v, n);
      if Holds(e.workers[w]) {
        assert HasClaim(e, w, e.workers[w].claim.number);
      }
    } else if Holds(e.workers[w]) {
      assert HasClaim(e, w, n);
    }
  }

  lemma StepKeepsHands(e: Exec, w: nat, action: Action, e': Exec)
    requires HandsInv(e) && Next(e, w, action, e')
    ensures HandsInv(e')
  {
    forall v: nat, n: nat | HasClaim(e', v, n) ensures n < e'.claimed && n !in e'.outcomes {
      StepOriginOfClaim(e, w, action, e', v, n);
    }
    forall u: nat, v: nat, n: nat | HasClaim(e', u, n) && HasClaim(e', v, n) ensures u == v {
      StepOriginOfClaim(e, w, action, e', u, n);
      StepOriginOfClaim(e, w, action, e', v, n);
    }
    forall n | n in e'.outcomes ensures n < e'.claimed {
      if n !in e.outcomes {
        assert HasClaim(e, w, n);
      }
    }
  }

  lemma StepKeepsLedger(e: Exec, w: nat, action: Action, e': Exec)
    requires HandsInv(e) && LedgerInv(e) && Next(e, w, action, e')
    ensures LedgerInv(e')
  {
    if Holds(e.workers[w]) {
      assert HasClaim(e, w, e.workers[w].claim.number);
    }
    forall n: nat | n < e'.claimed ensures AccountedFor(e', n) {
      if n == e.claimed {
        assert HasClaim(e', w, n);
      } else if n !in e.outcomes {
        assert AccountedFor(e, n);
        var v :| 0 <= v < |e.workers| && HasClaim(e, v, n);
        assert v == w || HasClaim(e', v, n);
        assert n in e'.outcomes || HasClaim(e', v, n);
      }
    }
  }

  lemma EndedGrows(e: Exec, n: nat, outcome: Outcome, counted: Outcome)
    requires n !in e.outcomes
    ensures |Ended(e.(outcomes := e.outcomes[n := outcome]), counted)|
         == |Ended(e, counted)| + if outcome == counted then 1 else 0
  {
    var e' := e.(outcomes := e.outcomes[n := outcome]);
    if outcome == counted {
      assert Ended(e', counted) == Ended(e, counted) + {n};
    } else {
      assert Ended(e', counted) == Ended(e, counted);
    }
  }

  lemma StepKeepsCounters(e: Exec, w: nat, action: Action, e': Exec)
    requires HandsInv(e) && CountersInv(e) && Next(e, w, action, e')
    ensures CountersInv(e')
  {
    if action.End? || action.Record? {
      var n := e.workers[w].claim.number;
      assert HasClaim(e, w, n);
      var outcome := e'.outcomes[n];
      assert e'.outcomes == e.outcomes[n := outcome];
      EndedGrows(e, n, outcome, Completed);
      EndedGrows(e, n, outcome, Failed);
    }
  }

  lemma StepKeepsCooldown(e: Exec, w: nat, action: Action, e': Exec)
    requires HandsInv(e) && CooldownInv(e) && Next(e, w, action, e')
    ensures CooldownInv(e')
  {
    if Holds(e.workers[w]) {
      assert HasClaim(e, w, e.workers[w].claim.number);
    }
  }

  // ---- Whole runs ----

  lemma {:induction false} RunKeepsInv(r: Run, i: nat)
    requires IsRun(r) && i < |r.states|
    ensures Inv(r.states[i])
  {
    if i == 0 {
      assert Ended(r.states[0], Completed) == {} && Ended(r.states[0], Failed) == {};
    } else {
      RunKeepsInv(r, i - 1);
      var e, w, action, e' := r.states[i - 1], r.movers[i - 1], r.actions[i - 1], r.states[i];
      assert Next(e, w, action, e');
      StepKeepsLocks(e, w, action, e');
      StepKeepsClaims(e, w, action, e');
      StepKeepsHands(e, w, action, e');
      StepKeepsLedger(e, w, action, e');
      StepKeepsCounters(e, w, action, e');
      StepKeepsCooldown(e, w, action, e');
    }
  }

  lemma ClaimsNeverExceedTheBatch(r: Run, i: nat)
    requires IsRun(r) && i < |r.states|
    ensures r.states[i].claimed == 0 || r.states[i].claimed <= r.states[i].batch
  {
    RunKeepsInv(r, i);
  }

  /** Job types whose jobs mutate the same tables: resolving Articles, refreshing and auditing share the Cases. */
  const EXCLUSIVE_TYPES := [
    {ResolveArticleCases, RefreshCase, AuditCaseCoherence}, {ResolveArticleEntities}, {ResolveArticleEvents}]

  /** Two jobs that mutate the same tables never run at once. */
  lemma NamespacesAreExclusive(r: Run, i: nat, v: nat, w: nat, types: set<JobType>)
    requires IsRun(r) && i < |r.states| && v < w < |r.states[i].workers|
    requires Running(r.states[i].workers[v]) && Running(r.states[i].workers[w]) && types in EXCLUSIVE_TYPES
    ensures r.states[i].workers[v].claim.jobType !in types || r.states[i].workers[w].claim.jobType !in types
  {
    RunKeepsInv(r, i);
    var pc, pc' := r.states[i].workers[v], r.states[i].workers[w];
    if pc.claim.jobType in types && pc'.claim.jobType in types {
      var ns := NamespaceOf(pc.claim.jobType).value;
      assert Exclusive(r.states[i], ns) && Occupies(pc, ns) && Occupies(pc', ns);
    }
  }

  ghost predicate AllFinished(e: Exec) {
    forall w | 0 <= w < |e.workers| :: e.workers[w].Finished?
  }

  /** When the cycle is over every claimed job was completed, failed or deferred, and the counters say how many. */
  lemma EveryClaimEnds(r: Run, i: nat)
    requires IsRun(r) && i < |r.states| && AllFinished(r.states[i])
    ensures forall n: nat :: n in r.states[i].outcomes <==> n < r.states[i].claimed
    ensures r.states[i].processed == |Ended(r.states[i], Completed)|
    ensures r.states[i].failed == |Ended(r.states[i], Failed)|
  {
    RunKeepsInv(r, i);
    forall n: nat | n < r.states[i].claimed ensures n in r.states[i].outcomes {
      assert AccountedFor(r.states[i], n);
    }
  }

  lemma StepKeepsOutcomes(e: Exec, w: nat, action: Action, e': Exec, n: nat)
    requires HandsInv(e) && Next(e, w, action, e') && n in e.outcomes
    ensures n in e'.outcomes && e'.outcomes[n] == e.outcomes[n]
  {
    assert Holds(e.workers[w]) ==> HasClaim(e, w, e.workers[w].claim.number);
  }

  /** A claim has at most one outcome: once one is recorded no later step records another, and no worker holds it. */
  lemma {:induction false} OutcomesAreFinal(r: Run, i: nat, j: nat, n: nat)
    requires IsRun(r) && i <= j < |r.states| && n in r.states[i].outcomes
    ensures n in r.states[j].outcomes && r.states[j].outcomes[n] == r.states[i].outcomes[n]
    ensures forall w: nat :: !HasClaim(r.states[j], w, n)
    decreases j - i
  {
    RunKeepsInv(r, j);
    if i < j {
      OutcomesAreFinal(r, i, j - 1, n);
      RunKeepsInv(r, j - 1);
      StepKeepsOutcomes(r.states[j - 1], r.movers[j - 1], r.actions[j - 1], r.states[j], n);
    }
  }

  /** One cooldown at most is recorded, and every rate-limited job of the cycle waits for the same moment. */
  lemma OneCooldownIsShared(r: Run, i: nat, m: nat, n: nat)
    requires IsRun(r) && i < |r.states|
    requires m in r.states[i].outcomes && r.states[i].outcomes[m].RateLimited?
    requires n in r.states[i].outcomes && r.states[i].outcomes[n].RateLimited?
    ensures r.states[i].outcomes[m] == r.states[i].outcomes[n]
    ensures r.states[i].cooldowns == 1
  {
    RunKeepsInv(r, i);
  }

  /** Claims made plus the claim a scan under way may still make. */
  function Committed(e: Exec): nat {
    e.claimed + if Scans(e) then 1 else 0
  }

  lemma StoppedStepCommitsNothing(e: Exec, w: nat, action: Action, e': Exec)
    requires LocksInv(e) && e.stop && Next(e, w, action, e')
    ensures e'.stop && Committed(e') <= Committed(e)
  {
    var pc, pc' := e.workers[w], e'.workers[w];
    if pc.Scanning? {
      assert Scans(e);
      forall v | 0 <= v < |e'.workers| && v != w ensures !e'.workers[v].Scanning? {}
    } else {
      forall v | 0 <= v < |e'.workers| ensures e'.workers[v].Scanning? ==> e.workers[v].Scanning? {}
    }
  }

  /** After the stop flag is set at most one more job is claimed: the one a scan already under way finds. */
  lemma {:induction false} StoppingAdmitsOneClaim(r: Run, i: nat, j: nat)
    requires IsRun(r) && i <= j < |r.states| && r.states[i].stop
    ensures r.states[j].stop && Committed(r.states[j]) <= Committed(r.states[i])
    ensures r.states[j].claimed <= r.states[i].claimed + 1
    decreases j - i
  {
    if i < j {
      StoppingAdmitsOneClaim(r, i, j - 1);
      RunKeepsInv(r, j - 1);
      assert Next(r.states[j - 1], r.movers[j - 1], r.actions[j - 1], r.states[j]);
      StoppedStepCommitsNothing(r.states[j - 1], r.movers[j - 1], r.actions[j - 1], r.states[j]);
    }
  }

  /**
   A rate limit, and a job deferred because a dependency is unavailable, stop the claiming:
   from then on at most the claim that a scan under way may make is made.
   */
  lemma RateLimitsStopClaiming(r: Run, i: nat, j: nat)
    requires IsRun(r) && i < j < |r.states|
    requires r.actions[i].HitRateLimit? || (r.actions[i].End? && r.actions[i].stopping)
    ensures r.states[j].stop && r.states[j].claimed <= r.states[i].claimed + 1
  {
    assert Next(r.states[i], r.movers[i], r.actions[i], r.states[i + 1]);
    StoppingAdmitsOneClaim(r, i + 1, j);
  }

  // ---- Progress and termination ----

  /** No deadlock: until every worker has finished, some worker can move. */
  lemma SomeWorkerCanMove(e: Exec)
    requires !AllFinished(e)
    ensures exists w, action, e' :: Next(e, w, action, e')
  {
    if Scans(e) {
      var w :| 0 <= w < |e.workers| && e.workers[w].Scanning?;
      var e' := if e.workers[w].probes >= e.types then Moved(e, w, Finished)
          else Moved(e, w, Scanning(e.workers[w].probes + 1));
      assert Next(e, w, Probe(None), e');
    } else if Records(e) {
      var w :| 0 <= w < |e.workers| && e.workers[w].Recording?;
      RecordingCanMove(e, w);
    } else {
      var w :| 0 <= w < |e.workers| && !e.workers[w].Finished?;
      if ns, v :| 0 <= v < |e.workers| && Occupies(e.workers[v], ns) {
        RunningCanMove(e, v);
      } else {
        var pc := e.workers[w];
        if pc.AtLoop? {
          assert Next(e, w, CheckStop, Moved(e, w, if e.stop then Finished else AtClaimLock));
        } else if pc.AtClaimLock? {
          assert Next(e, w, EnterClaim, Moved(e, w, if e.stop || e.claimed >= e.batch then Finished else Scanning(0)));
        } else if pc.AtNamespace? {
          assert Next(e, w, EnterNamespace, Moved(e, w, Executing(pc.claim)));
        } else {
          RunningCanMove(e, w);
        }
      }
    }
  }

  lemma RecordingCanMove(e: Exec, w: nat)
    requires w < |e.workers| && e.workers[w].Recording?
    ensures exists v, action, e' :: Next(e, v, action, e')
  {
    var resumeAt := if e.resumeAt.Some? then e.resumeAt.value else 0;
    assert Next(e, w, Record(0),
                Moved(e, w, AtLoop).(resumeAt := Some(resumeAt),
                                     cooldowns := e.cooldowns + if e.resumeAt.Some? then 0 else 1,
                                     outcomes := e.outcomes[e.workers[w].claim.number := RateLimited(resumeAt)]));
  }

  lemma RunningCanMove(e: Exec, w: nat)
    requires w < |e.workers| && Running(e.workers[w]) && !Records(e)
    ensures exists v, action, e' :: Next(e, v, action, e')
  {
    if e.workers[w].Executing? {
      assert Next(e, w, HitRateLimit, Moved(e, w, AtRateLock(e.workers[w].claim)).(stop := true));
    } else {
      assert Next(e, w, EnterRateLock, Moved(e, w, Recording(e.workers[w].claim)));
    }
  }

  /** How many steps a worker can still take without claiming. */
  function Rank(pc: Pc, types: nat): nat {
    match pc
    case Finished => 0
    case Scanning(probes) => if probes <= types then 1 + types - probes else 1
    case AtClaimLock => types + 2
    case AtLoop => types + 3
    case Recording(_) => types + 4
    case AtRateLock(_) => types + 5
    case Executing(_) => types + 6
    case AtNamespace(_) => types + 7
  }

  function RankSum(workers: seq<Pc>, types: nat, k: nat): nat
    requires k <= |workers|
  {
    if k == 0 then 0 else RankSum(workers, types, k - 1) + Rank(workers[k - 1], types)
  }

  lemma {:induction false} RankSumMoves(workers: seq<Pc>, types: nat, k: nat, w: nat, pc: Pc)
    requires w < |workers| && k <= |workers|
    ensures RankSum(workers[w := pc], types, k)
         == RankSum(workers, types, k) + if w < k then Rank(pc, types) - Rank(workers[w], types) else 0
  {
    if k > 0 {
      RankSumMoves(workers, types, k - 1, w, pc);
    }
  }

  function Unclaimed(e: Exec): nat {
    if e.claimed < e.batch then e.batch - e.claimed else 0
  }

  function StepsLeft(e: Exec): nat {
    RankSum(e.workers, e.types, |e.workers|) + Unclaimed(e) * (e.types + 7)
  }

  /** A step either claims, and raises its worker's rank by less than a claim is worth, or lowers the rank. */
  lemma StepLowersRank(e: Exec, w: nat, action: Action, e': Exec)
    requires ClaimsInv(e) && Next(e, w, action, e')
    ensures e'.types == e.types && e'.workers == e.workers[w := e'.workers[w]]
    ensures || (Unclaimed(e') == Unclaimed(e) && Rank(e'.workers[w], e.types) < Rank(e.workers[w], e.types))
            || (Unclaimed(e') + 1 == Unclaimed(e)
                && Rank(e'.workers[w], e.types) < Rank(e.workers[w], e.types) + e.types + 7)
  {
  }

  lemma StepsLeftFalls(e: Exec, w: nat, action: Action, e': Exec)
    requires ClaimsInv(e) && Next(e, w, action, e')
    ensures StepsLeft(e') < StepsLeft(e)
  {
    StepLowersRank(e, w, action, e');
    var worth := e.types + 7;
    RankSumMoves(e.workers, e.types, |e.workers|, w, e'.workers[w]);
    if Unclaimed(e') != Unclaimed(e) {
      assert Unclaimed(e) * worth == Unclaimed(e') * worth + worth;
    }
  }

  lemma {:induction false} RankSumAtStart(workers: seq<Pc>, types: nat, k: nat)
    requires k <= |workers| && forall w | 0 <= w < |workers| :: workers[w] == AtLoop
    ensures RankSum(workers, types, k) == k * (types + 3)
  {
    if k > 0 {
      RankSumAtStart(workers, types, k - 1);
    }
  }

  lemma {:induction false} StepsAreSpent(r: Run, i: nat)
    requires IsRun(r) && i < |r.states|
    ensures StepsLeft(r.states[i]) + i <= StepsLeft(r.states[0])
  {
    if i > 0 {
      StepsAreSpent(r, i - 1);
      RunKeepsInv(r, i - 1);
      assert Next(r.states[i - 1], r.movers[i - 1], r.actions[i - 1], r.states[i]);
      StepsLeftFalls(r.states[i - 1], r.movers[i - 1], r.actions[i - 1], r.states[i]);
    }
  }

  /** Every cycle ends: no run has more steps than its workers, its batch size and its schedule allow. */
  lemma CyclesEnd(r: Run)
    requires IsRun(r)
    ensures var e := r.states[0];
            |r.actions| <= |e.workers| * (e.types + 3) + (if e.batch > 0 then e.batch else 0) * (e.types + 7)
  {
    var e := r.states[0];
    StepsAreSpent(r, |r.actions|);
    RankSumAtStart(e.workers, e.types, |e.workers|);
    assert Unclaimed(e) == if e.batch > 0 then e.batch else 0;
  }
}
