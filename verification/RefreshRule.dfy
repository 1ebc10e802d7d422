/**
 When a Case's reader-facing text is refreshed: whenever its Article count has
 passed a perfect square since the last refresh. The planner reads the rule, ensures
 a job later, and the handler runs later still without reading the rule again.
 */
module RefreshRule {
  import opened Evidence
  import opened Wrappers

  /** `floor(sqrt(n))` */
  function SquareBucket(n: nat): nat {
    if n == 0 then 0
    else
      var r := SquareBucket(n - 1);
      if (r + 1) * (r + 1) <= n then r + 1 else r
  }

  lemma {:induction false} BucketBounds(n: nat)
    ensures SquareBucket(n) * SquareBucket(n) <= n < (SquareBucket(n) + 1) * (SquareBucket(n) + 1)
  {
    if n > 0 {
      BucketBounds(n - 1);
    }
  }

  /** The columns of a Case row that the rule reads. */
  datatype CaseText = CaseText(status: Status, articleCount: nat, lastRefreshed: nat, hasSummary: bool)

  /** `due_square_threshold` */
  predicate DueSquareThreshold(c: CaseText) {
    && c.articleCount > c.lastRefreshed
    && c.articleCount > 0
    && SquareBucket(c.articleCount) > SquareBucket(c.lastRefreshed)
  }

  /** `_cases_due_for_refresh_query`, for one row. */
  predicate Due(c: CaseText) {
    c.status == Active && (!c.hasSummary || DueSquareThreshold(c))
  }

  ghost predicate SquareBetween(low: nat, high: nat) {
    exists r: nat :: low < r * r <= high
  }

  lemma SquaresRise(r: nat, t: nat)
    requires r <= t
    ensures r * r <= t * t
  {
    assert t * t == r * r + (t - r) * (t + r);
  }

  /** The bucket of `n` is the only number whose square and the next enclose `n`. */
  lemma BucketIsUnique(n: nat, r: nat)
    requires r * r <= n < (r + 1) * (r + 1)
    ensures SquareBucket(n) == r
  {
    var t := SquareBucket(n);
    BucketBounds(n);
    if t < r {
      SquaresRise(t + 1, r);
    } else if t > r {
      SquaresRise(r + 1, t);
    }
  }

  lemma {:induction false} BucketsRise(m: nat, n: nat)
    requires m <= n
    ensures SquareBucket(m) <= SquareBucket(n)
  {
    if m < n {
      BucketsRise(m, n - 1);
    }
  }

  /** The rule fires exactly when a perfect square lies above the last refreshed count, and not above the count. */
  lemma DueMeansSquareBetween(c: CaseText)
    ensures DueSquareThreshold(c) <==> SquareBetween(c.lastRefreshed, c.articleCount)
    ensures Due(c) <==> c.status == Active && (!c.hasSummary || SquareBetween(c.lastRefreshed, c.articleCount))
  {
    var low, high := SquareBucket(c.lastRefreshed), SquareBucket(c.articleCount);
    BucketBounds(c.lastRefreshed);
    BucketBounds(c.articleCount);
    if DueSquareThreshold(c) {
      SquaresRise(low + 1, high);
      assert c.lastRefreshed < high * high <= c.articleCount;
    }
    if SquareBetween(c.lastRefreshed, c.articleCount) {
      var r: nat :| c.lastRefreshed < r * r <= c.articleCount;
      SquareSeparates(c.lastRefreshed, c.articleCount, r);
    }
  }

  lemma SquareSeparates(low: nat, high: nat, r: nat)
    requires low < r * r <= high
    ensures SquareBucket(low) < r <= SquareBucket(high)
  {
    BucketBounds(low);
    BucketBounds(high);
    if r <= SquareBucket(low) {
      SquaresRise(r, SquareBucket(low));
    }
    if SquareBucket(high) < r {
      SquaresRise(SquareBucket(high) + 1, r);
    }
  }

  // ---- A Case that only grows, and its refresh job ----

  datatype JobState = Idle | Waiting | Taken

  /**
   `foundDue` are the refreshed counts at which the planner has found a threshold due.
   The job carries the one it was ensured for, or nothing when something else asked
   for the refresh. A claim is in one of three sets of hands: `atWork`, by the count it
   was ensured for, until its handler commits or gives up; `others`, claims for
   something else; `committed`, until the worker has finished the job. `runs` are the
   commits for a threshold, and `repeats` the re-executions.
   */
  datatype Growth = Growth(
    row: CaseText,
    foundDue: set<nat>,
    job: JobState,
    ensuredFor: Option<nat>,
    atWork: multiset<nat>,
    others: nat,
    committed: nat,
    runs: nat,
    repeats: nat)

  /** Whose claim it is that commits, or whose worker finishes the job. */
  datatype Hand = ForThreshold(count: nat) | ForOther | AfterCommit

  datatype Step =
    | NewLink
    | Query
    | Ensure(count: nat)
    | Ask
    | Take
    | Commit(hand: Hand)
    | Finish(hand: Hand, again: bool)

  /**
   A claim is a re-execution when another run has met its threshold since the planner
   read the rule, or when an earlier claim for the same threshold is still at work.
   */
  predicate Repeats(g: Growth) {
    g.ensuredFor.Some? && (g.ensuredFor.value != g.row.lastRefreshed || g.ensuredFor.value in g.atWork)
  }

  predicate Holds(g: Growth, hand: Hand) {
    match hand
    case ForThreshold(count) => count in g.atWork
    case ForOther => g.others > 0
    case AfterCommit => g.committed > 0
  }

  function Released(g: Growth, hand: Hand): Growth
    requires Holds(g, hand)
  {
    match hand
    case ForThreshold(count) => g.(atWork := g.atWork - multiset{count})
    case ForOther => g.(others := g.others - 1)
    case AfterCommit => g.(committed := g.committed - 1)
  }

  predicate Next(g: Growth, step: Step, g': Growth) {
    match step
    case NewLink => g' == Linked(g)
    case Query => Due(g.row) && DueSquareThreshold(g.row) && g' == g.(foundDue := g.foundDue + {g.row.lastRefreshed})
    case Ensure(count) =>
      && count in g.foundDue
      && g' == if g.job.Idle? then g.(job := Waiting, ensuredFor := Some(count)) else g
    case Ask => g' == if g.job.Idle? then g.(job := Waiting, ensuredFor := None) else g
    case Take => !g.job.Idle? && g' == Claimed(g)
    case Commit(hand) => !hand.AfterCommit? && Holds(g, hand) && g' == Committed(Released(g, hand), hand)
    case Finish(hand, again) => Holds(g, hand) && g' == Released(g, hand).(job := if again then Waiting else Idle)
  }

  function Linked(g: Growth): Growth {
    g.(row := g.row.(articleCount := g.row.articleCount + 1))
  }

  function Claimed(g: Growth): Growth {
    if g.ensuredFor.None? then g.(job := Taken, others := g.others + 1)
    else g.(job := Taken, atWork := g.atWork + multiset{g.ensuredFor.value},
            repeats := g.repeats + if Repeats(g) then 1 else 0)
  }

  /** `RefreshCaseJobHandler.handle` commits; it does not read the rule again. */
  function Committed(g: Growth, hand: Hand): Growth {
    g.(row := g.row.(lastRefreshed := g.row.articleCount, hasSummary := true),
       committed := g.committed + 1,
       runs := g.runs + if hand.ForThreshold? then 1 else 0)
  }

  function Start(row: CaseText): Growth {
    Growth(row, {}, Idle, None, multiset{}, 0, 0, 0, 0)
  }

  ghost predicate IsRun(states: seq<Growth>, steps: seq<Step>) {
    && |states| == |steps| + 1
    && states[0] == Start(states[0].row) && states[0].row.lastRefreshed <= states[0].row.articleCount
    && forall i {:trigger steps[i]} | 0 <= i < |steps| :: Next(states[i], steps[i], states[i + 1])
  }

  /** While the threshold now due is being worked on, one run has still to pass it. */
  function Room(g: Growth): nat {
    if g.row.lastRefreshed in g.atWork then 1 else 0
  }

  /**
   Each count ever found due is in a lower bucket than the Articles are; runs and claims at
   work are accounted for.
   */
  ghost predicate Inv(g: Growth) {
    && g.row.lastRefreshed <= g.row.articleCount
    && (forall count | count in g.foundDue :: SquareBucket(count) < SquareBucket(g.row.articleCount))
    && (forall count | count in g.atWork :: count in g.foundDue)
    && (g.ensuredFor.Some? ==> g.ensuredFor.value in g.foundDue)
    && g.runs + |g.atWork| <= SquareBucket(g.row.lastRefreshed) + g.repeats + Room(g)
  }

  lemma ReleaseKeepsInv(g: Growth, hand: Hand)
    requires Inv(g) && Holds(g, hand)
    ensures Inv(Released(g, hand))
  {
  }

  /** Refreshing moves on to the bucket of the Articles, which makes up for the room that the old threshold had. */
  lemma CommitKeepsInv(g: Growth, hand: Hand)
    requires Inv(g) && Holds(g, hand) && !hand.AfterCommit?
    ensures Inv(Committed(Released(g, hand), hand))
  {
    BucketsRise(g.row.lastRefreshed, g.row.articleCount);
  }

  lemma LinkKeepsInv(g: Growth)
    requires Inv(g)
    ensures Inv(Linked(g))
  {
    BucketsRise(g.row.articleCount, g.row.articleCount + 1);
  }

  /** A claim that is no re-execution makes the room it takes. */
  lemma ClaimKeepsInv(g: Growth)
    requires Inv(g)
    ensures Inv(Claimed(g))
  {
    if g.ensuredFor.Some? {
      var count := g.ensuredFor.value;
      assert |g.atWork + multiset{count}| == |g.atWork| + 1;
      assert forall c | c in g.atWork + multiset{count} :: c in g.atWork || c == count;
      assert g.row.lastRefreshed in g.atWork ==> g.row.lastRefreshed in g.atWork + multiset{count};
    }
  }

  /** What asks for refreshes changes no count that the account is about. */
  lemma AskingKeepsInv(g: Growth, step: Step, g': Growth)
    requires Inv(g) && Next(g, step, g') && (step.Query? || step.Ensure? || step.Ask?)
    ensures Inv(g')
  {
    assert g'.atWork == g.atWork && g'.row == g.row && g.foundDue <= g'.foundDue;
  }

  lemma FinishKeepsInv(g: Growth, hand: Hand, job: JobState)
    requires Inv(g) && Holds(g, hand)
    ensures Inv(Released(g, hand).(job := job))
  {
    ReleaseKeepsInv(g, hand);
  }

  lemma StepKeepsInv(g: Growth, step: Step, g': Growth)
    requires Inv(g) && Next(g, step, g')
    ensures Inv(g')
  {
    match step
    case NewLink => LinkKeepsInv(g);
    case Take => ClaimKeepsInv(g);
    case Commit(hand) => CommitKeepsInv(g, hand);
    case Finish(hand, again) => FinishKeepsInv(g, hand, g'.job);
    case _ => AskingKeepsInv(g, step, g');
  }

  lemma {:induction false} RunKeepsInv(states: seq<Growth>, steps: seq<Step>, k: nat)
    requires IsRun(states, steps) && k < |states|
    ensures Inv(states[k])
  {
    if k > 0 {
      RunKeepsInv(states, steps, k - 1);
      StepKeepsInv(states[k - 1], steps[k - 1], states[k]);
    }
  }

  /**
   However links, queries, enqueues, claims, expired leases and late finishes
   interleave: the handler runs for a threshold at most `isqrt(n)` times on a Case of
   `n` Articles, plus once for each re-execution.
   */
  lemma ThresholdRunsAreBounded(states: seq<Growth>, steps: seq<Step>, k: nat)
    requires IsRun(states, steps) && k < |states|
    ensures states[k].runs <= SquareBucket(states[k].row.articleCount) + states[k].repeats
  {
    RunKeepsInv(states, steps, k);
    BucketsRise(states[k].row.lastRefreshed, states[k].row.articleCount);
  }

  /**
   A claim whose worker dies, and so never ends, is held against its own threshold
   only: once a refresh has met that, the first claim for the next one is no
   re-execution, whatever is still at work.
   */
  lemma DeadClaimsAreNotCountedAgain(g: Growth, hand: Hand)
    requires Inv(g) && Holds(g, hand) && !hand.AfterCommit?
    ensures var after := Committed(Released(g, hand), hand);
            !Repeats(after.(ensuredFor := Some(after.row.lastRefreshed)))
  {
    CommitKeepsInv(g, hand);
  }

  // ---- The bound is met ----

  lemma OneMoreStep(states: seq<Growth>, steps: seq<Step>, step: Step, g: Growth)
    requires IsRun(states, steps) && Next(states[|steps|], step, g)
    ensures IsRun(states + [g], steps + [step])
  {
    var longer, more := states + [g], steps + [step];
    forall i {:trigger more[i]} | 0 <= i < |more| ensures Next(longer[i], more[i], longer[i + 1]) {
      if i < |steps| {
        assert Next(states[i], steps[i], states[i + 1]);
      }
    }
  }

  /** One more Article reaches the next bucket exactly when it makes the next square. */
  lemma NextSquare(n: nat)
    ensures var r := SquareBucket(n);
            && SquareBucket(r * r) == r
            && SquareBucket(n + 1) == (if n + 1 == (r + 1) * (r + 1) then r + 1 else r)
            && r * r <= n
  {
    BucketBounds(n);
    var r := SquareBucket(n);
    BucketIsUnique(r * r, r);
  }

  /** A Case that has a summary and is refreshed to its last square, with no claim of its job left. */
  predicate UpToDate(g: Growth) {
    && g.row == CaseText(Active, g.row.articleCount, g.row.lastRefreshed, true)
    && g.row.lastRefreshed == SquareBucket(g.row.articleCount) * SquareBucket(g.row.articleCount)
    && g.job.Idle? && g.atWork == multiset{} && g.committed == 0
  }

  /** The state after a due refresh, from its claim to its commit. */
  function Rerun(g: Growth): Growth {
    Committed(Claimed(g).(atWork := g.atWork), ForThreshold(0))
  }

  lemma RerunIsTwoSteps(states: seq<Growth>, steps: seq<Step>) returns (states': seq<Growth>, steps': seq<Step>)
    requires IsRun(states, steps)
    requires var g := states[|steps|]; !g.job.Idle? && g.ensuredFor.Some? && g.atWork == multiset{}
    ensures IsRun(states', steps') && states'[|steps'|] == Rerun(states[|steps|])
  {
    var g := states[|steps|];
    var hand := ForThreshold(g.ensuredFor.value);
    OneMoreStep(states, steps, Take, Claimed(g));
    states', steps' := states + [Claimed(g)], steps + [Take];
    assert g.atWork + multiset{g.ensuredFor.value} - multiset{g.ensuredFor.value} == g.atWork;
    assert Next(Claimed(g), Commit(hand), Rerun(g));
    OneMoreStep(states', steps', Commit(hand), Rerun(g));
    states', steps' := states' + [Rerun(g)], steps' + [Commit(hand)];
  }

  /** The job of a Case that just became due: found, ensured, and waiting. */
  function Readied(g: Growth): Growth {
    g.(foundDue := g.foundDue + {g.row.lastRefreshed}, job := Waiting, ensuredFor := Some(g.row.lastRefreshed))
  }

  lemma ReadiedIsTwoSteps(states: seq<Growth>, steps: seq<Step>) returns (states': seq<Growth>, steps': seq<Step>)
    requires IsRun(states, steps)
    requires var g := states[|steps|]; g.job.Idle? && g.row.status == Active && DueSquareThreshold(g.row)
    ensures IsRun(states', steps') && states'[|steps'|] == Readied(states[|steps|])
  {
    var g := states[|steps|];
    var found := g.(foundDue := g.foundDue + {g.row.lastRefreshed});
    OneMoreStep(states, steps, Query, found);
    states', steps' := states + [found], steps + [Query];
    OneMoreStep(states', steps', Ensure(g.row.lastRefreshed), Readied(g));
    states', steps' := states' + [Readied(g)], steps' + [Ensure(g.row.lastRefreshed)];
  }

  /** Claimed again and again after its commit, because its worker never says so, the job runs again each time. */
  lemma {:induction false} RerunAtWill(states: seq<Growth>, steps: seq<Step>, r: nat)
    returns (states': seq<Growth>, steps': seq<Step>)
    requires IsRun(states, steps)
    requires var g := states[|steps|];
             && g.job.Taken? && g.atWork == multiset{} && g.row.lastRefreshed == g.row.articleCount && g.row.hasSummary
             && g.ensuredFor.Some? && g.ensuredFor.value != g.row.lastRefreshed
    ensures IsRun(states', steps')
    ensures var g := states[|steps|];
            states'[|steps'|] == g.(runs := g.runs + r, repeats := g.repeats + r, committed := g.committed + r)
  {
    states', steps' := states, steps;
    if r > 0 {
      states', steps' := RerunAtWill(states, steps, r - 1);
      states', steps' := RerunIsTwoSteps(states', steps');
    }
  }

  /** The workers that have committed finish the job, one by one. */
  lemma {:induction false} AllFinish(states: seq<Growth>, steps: seq<Step>, c: nat)
    returns (states': seq<Growth>, steps': seq<Step>)
    requires IsRun(states, steps) && states[|steps|].committed == c > 0
    ensures IsRun(states', steps') && states'[|steps'|] == states[|steps|].(committed := 0, job := Idle)
    decreases c
  {
    var g := states[|steps|].(committed := c - 1, job := Idle);
    OneMoreStep(states, steps, Finish(AfterCommit, false), g);
    states', steps' := states + [g], steps + [Finish(AfterCommit, false)];
    if c > 1 {
      states', steps' := AllFinish(states', steps', c - 1);
    }
  }

  /** One more Article, refreshed at once if it is due, and then `r` times again if it was. */
  lemma OneMoreArticle(states: seq<Growth>, steps: seq<Step>, r: nat) returns (states': seq<Growth>, steps': seq<Step>)
    requires IsRun(states, steps) && UpToDate(states[|steps|])
    ensures IsRun(states', steps') && UpToDate(states'[|steps'|])
    ensures var g, g' := states[|steps|], states'[|steps'|];
            var due := SquareBucket(g.row.articleCount) < SquareBucket(g'.row.articleCount);
            && g'.row.articleCount == g.row.articleCount + 1
            && g'.runs == g.runs + (if due then 1 + r else 0) && g'.repeats == g.repeats + (if due then r else 0)
  {
    var g := states[|steps|];
    var n := g.row.articleCount;
    NextSquare(n);
    OneMoreStep(states, steps, NewLink, Linked(g));
    states', steps' := states + [Linked(g)], steps + [NewLink];
    if DueSquareThreshold(Linked(g).row) {
      states', steps' := ReadiedIsTwoSteps(states', steps');
      states', steps' := RerunIsTwoSteps(states', steps');
      states', steps' := RerunAtWill(states', steps', r);
      states', steps' := AllFinish(states', steps', 1 + r);
    }
  }

  /**
   The bound is met everywhere: for any number of Articles and of re-executions some
   run refreshes exactly that often, and without re-executions once for every square.
   */
  lemma {:induction false} BoundIsMet(n: nat, r: nat) returns (states: seq<Growth>, steps: seq<Step>)
    requires n == 0 ==> r == 0
    ensures IsRun(states, steps) && UpToDate(states[|steps|]) && states[|steps|].row.articleCount == n
    ensures states[|steps|].repeats == r && states[|steps|].runs == SquareBucket(n) + r
  {
    if n == 0 {
      states, steps := [Start(CaseText(Active, 0, 0, true))], [];
    } else {
      states, steps := BoundIsMet(n - 1, if n == 1 then 0 else r);
      NextSquare(n - 1);
      states, steps := OneMoreArticle(states, steps, if n == 1 then r else 0);
    }
  }
}
