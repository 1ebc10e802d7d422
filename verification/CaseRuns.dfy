/** What holds over every interleaved run of the Case jobs. */
module CaseRuns {
  import opened Collections
  import opened Wrappers
  import opened AuditOutput
  import opened Evidence
  import opened Transactions
  import opened CaseProtocol

  datatype Run = Run(states: seq<Sys>, actions: seq<Action>)

  ghost predicate IsRun(r: Run) {
    && |r.states| == |r.actions| + 1
    && Init(r.states[0])
    && forall i {:trigger r.actions[i]} | 0 <= i < |r.actions| :: Next(r.states[i], r.actions[i], r.states[i + 1])
  }

  lemma {:induction false} RunKeepsInv(r: Run, i: nat)
    requires IsRun(r) && i < |r.states|
    ensures Inv(r.states[i])
  {
    if i == 0 {
      InitHolds(r.states[0]);
    } else {
      RunKeepsInv(r, i - 1);
      StepKeepsInv(r.states[i - 1], r.actions[i - 1], r.states[i]);
    }
  }

  lemma StepEvolves(r: Run, i: nat)
    requires IsRun(r) && i < |r.actions|
    ensures Evolves(r.states[i].db, r.states[i + 1].db)
  {
    RunKeepsInv(r, i);
    StepKeepsInv(r.states[i], r.actions[i], r.states[i + 1]);
  }

  lemma {:induction false} RunEvolves(r: Run, i: nat, j: nat)
    requires IsRun(r) && i <= j < |r.states|
    ensures Evolves(r.states[i].db, r.states[j].db)
    decreases j
  {
    if i < j {
      RunEvolves(r, i, j - 1);
      StepEvolves(r, j - 1);
      EvolvesTransitive(r.states[i].db, r.states[j - 1].db, r.states[j].db);
    }
  }

  // ---- Provenance and the public views ----

  /** The Articles linked to the row's Case that mention the item and are scoped to the Case. */
  function Backing(g: Graph, l: Layer, k: Key): set<Article> {
    set x | x in g.links && x.caseId == k.caseId && Mention(x.article, k.item) in l.mentions
        && Scope(x.article, k.item, k.caseId) in l.scopes :: x.article
  }

  /**
   Published Articles come before unpublished ones, earlier before later, and of two as early
   the one stored first.
   */
  predicate Earlier(a: Article, b: Article) {
    || (a.published.Some? && (b.published.None? || a.published.value < b.published.value))
    || (a.published == b.published && a.created <= b.created)
  }

  /**
   In every reachable state the public rows are exactly the pairs that linked
   Articles back, their counts are the numbers of those Articles, the first
   Article is an earliest one, and the Case counts are exact.
   */
  lemma PublicStateIsExact(r: Run, i: nat, l: Layer, k: Key)
    requires IsRun(r) && i < |r.states|
    requires l == r.states[i].db.entities || l == r.states[i].db.events
    ensures var backing := Backing(r.states[i].db, l, k);
            && (k in l.published <==> backing != {})
            && (k in l.published ==>
                  && l.published[k].count == |backing| && l.published[k].first in backing
                  && forall a | a in backing :: Earlier(l.published[k].first, a))
  {
    RunKeepsInv(r, i);
    var g := r.states[i].db;
    assert RowExact(l.scopes, l.published, k);
    assert Backing(g, l, k) == Support(l.scopes, k) by {
      forall a | a in Support(l.scopes, k)
        ensures a in Backing(g, l, k)
      {
        assert Scope(a, k.item, k.caseId) in l.scopes;
        assert Link(k.caseId, a) in g.links;
      }
      forall a | a in Backing(g, l, k)
        ensures a in Support(l.scopes, k)
      {
        assert Scope(a, k.item, k.caseId) in l.scopes;
      }
    }
  }

  lemma CaseCountsAreExact(r: Run, i: nat, c: CaseId)
    requires IsRun(r) && i < |r.states| && c in r.states[i].db.cases
    ensures var g := r.states[i].db;
            && g.cases[c].articleCount == |set x | x in g.links && x.caseId == c :: x.article|
            && g.cases[c].eventCount == |set k | k in g.events.published && k.caseId == c|
  {
    RunKeepsInv(r, i);
    var g := r.states[i].db;
    assert CaseCountsExact(g, c);
    assert LinkedTo(g.links, c) == set x | x in g.links && x.caseId == c :: x.article;
    assert EventKeys(g.events.published, c) == set k | k in g.events.published && k.caseId == c;
  }

  // ---- Optimistic concurrency ----

  /** Revisions never decrease, and equal revisions mean equal evidence. */
  lemma EqualRevisionsMeanEqualEvidence(r: Run, i: nat, j: nat, c: CaseId)
    requires IsRun(r) && i <= j < |r.states| && c in r.states[i].db.cases
    ensures c in r.states[j].db.cases
    ensures r.states[i].db.cases[c].revision <= r.states[j].db.cases[c].revision
    ensures r.states[i].db.cases[c].revision == r.states[j].db.cases[c].revision ==>
              LinkedTo(r.states[i].db.links, c) == LinkedTo(r.states[j].db.links, c)
  {
    RunEvolves(r, i, j);
    assert CaseEvolves(r.states[i].db, r.states[j].db, c);
  }

  function Audited(action: Action): set<CaseId> {
    match action
    case PublishSplit(_, c, _, _, _) => {c}
    case PublishHide(_, c) => {c}
    case PublishMerge(_, survivor, absorbed) => {survivor, absorbed}
    case _ => {}
  }

  /** A split, hide or merge applies to exactly the Articles its audit was prepared from. */
  lemma PublishedAuditsSawCurrentEvidence(r: Run, i: nat, w: WorkerId, c: CaseId)
    requires IsRun(r) && i < |r.actions|
    requires c in Audited(r.actions[i]) && w == r.actions[i].worker
    ensures HasRead(r.states[i], w, c)
    ensures r.states[i].audits[w][c].cards == Some(LinkedTo(r.states[i].db.links, c))
  {
    assert Next(r.states[i], r.actions[i], r.states[i + 1]);
    RunKeepsInv(r, i);
    GuardMeansCurrent(r.states[i], w, c);
  }

  /** The "audit article disappeared" error is unreachable: every story Article is still linked. */
  lemma NoStoryArticleDisappears(r: Run, i: nat, story: Story<Article>, a: Article)
    requires IsRun(r) && i < |r.actions| && r.actions[i].PublishSplit?
    requires story in r.actions[i].output.stories && a in story.articles
    ensures a in LinkedTo(r.states[i].db.links, r.actions[i].caseId)
  {
    assert Next(r.states[i], r.actions[i], r.states[i + 1]);
    PublishedAuditsSawCurrentEvidence(r, i, r.actions[i].worker, r.actions[i].caseId);
    assert a in Assigned(r.actions[i].output);
  }

  /** While case resolution waits for the model, no candidate it may link to stops being active. */
  lemma CandidatesStayActive(r: Run, i: nat, c: CaseId)
    requires IsRun(r) && i < |r.actions| && r.actions[i].CommitResolve? && c in r.actions[i].kept
    ensures IsActive(r.states[i].db, c)
  {
    assert Next(r.states[i], r.actions[i], r.states[i + 1]);
    RunKeepsInv(r, i);
  }

  // ---- Conservation of Article links ----

  lemma OnlySplitsRemoveLinks(s: Sys, action: Action, s': Sys, a: Article)
    requires Next(s, action, s') && !action.PublishSplit?
    ensures CasesOf(s.db.links, a) <= CasesOf(s'.db.links, a)
  {
    OnlySplitsUnlink(s, action, s');
  }

  lemma AssignedStaysLinked(links: set<Link>, c: CaseId, o: Output<Article>, newIds: seq<CaseId>,
      a: Article)
    requires |o.stories| == |newIds| && a in Assigned(o)
    ensures CasesOf(SplitLinks(links, c, o.stories, newIds), a) != {}
  {
    var story :| story in o.stories && a in story.articles;
    var j :| 0 <= j < |o.stories| && o.stories[j] == story;
    assert Link(Target(c, o.stories, newIds, j), a) in SplitLinks(links, c, o.stories, newIds);
    assert Target(c, o.stories, newIds, j) in CasesOf(SplitLinks(links, c, o.stories, newIds), a);
  }

  lemma UnlinkedBySplit(g: Graph, c: CaseId, revision: nat, o: Output<Article>,
      newIds: seq<CaseId>, a: Article)
    requires (forall l | l in g.links :: l.caseId in g.cases) && SplitReady(g, c, revision, o, newIds)
    requires CasesOf(g.links, a) != {} && CasesOf(SplitLinks(g.links, c, o.stories, newIds), a) == {}
    ensures a in o.detached && CasesOf(g.links, a) == {c}
  {
    var links' := SplitLinks(g.links, c, o.stories, newIds);
    forall x | x in CasesOf(g.links, a)
      ensures x == c
    {
      assert Link(x, a) in g.links;
      assert x !in CasesOf(links', a);
      assert Link(x, a) !in links';
    }
    var x :| x in CasesOf(g.links, a);
    assert a in LinkedTo(g.links, c);
    assert a in Assigned(o) + Elements(o.detached);
    if a in Assigned(o) {
      AssignedStaysLinked(g.links, c, o, newIds, a);
    }
  }

  /** Only a decisive audit that detaches the Article from its last Case leaves it without one. */
  lemma OnlyDetachingUnlinks(r: Run, i: nat, a: Article)
    requires IsRun(r) && i < |r.actions|
    requires CasesOf(r.states[i].db.links, a) != {} && CasesOf(r.states[i + 1].db.links, a) == {}
    ensures r.actions[i].PublishSplit? && a in r.actions[i].output.detached
    ensures CasesOf(r.states[i].db.links, a) == {r.actions[i].caseId}
  {
    var s, s', action := r.states[i], r.states[i + 1], r.actions[i];
    assert Next(s, action, s');
    RunKeepsInv(r, i);
    if action.PublishSplit? {
      GuardMeansCurrent(s, action.worker, action.caseId);
      UnlinkedBySplit(s.db, action.caseId, s.audits[action.worker][action.caseId].revision, action.output,
          action.newIds, a);
    } else {
      OnlySplitsRemoveLinks(s, action, s', a);
    }
  }

  /** A hidden or merged Case keeps its status, its revision and its Articles for ever. */
  lemma InactiveCasesAreFrozen(r: Run, i: nat, j: nat, c: CaseId)
    requires IsRun(r) && i <= j < |r.states| && c in r.states[i].db.cases
    requires r.states[i].db.cases[c].status != Active
    ensures c in r.states[j].db.cases
    ensures var before, after := r.states[i].db, r.states[j].db;
            && after.cases[c].status == before.cases[c].status
            && after.cases[c].mergedInto == before.cases[c].mergedInto
            && after.cases[c].revision == before.cases[c].revision
            && LinkedTo(after.links, c) == LinkedTo(before.links, c)
  {
    RunEvolves(r, i, j);
    assert CaseEvolves(r.states[i].db, r.states[j].db, c);
  }

  /** A Case that an audit hides is hidden for ever, with the revision and the Articles that the audit saw. */
  lemma HidingIsForEver(r: Run, i: nat, j: nat, w: WorkerId, c: CaseId)
    requires IsRun(r) && i < j < |r.states| && r.actions[i] == PublishHide(w, c)
    ensures HasRead(r.states[i], w, c) && c in r.states[j].db.cases
    ensures var row, seen := r.states[j].db.cases[c], r.states[i].audits[w][c];
            && row.status == Hidden && row.mergedInto.None? && row.revision == seen.revision
            && seen.cards == Some(LinkedTo(r.states[j].db.links, c))
  {
    assert Next(r.states[i], r.actions[i], r.states[i + 1]);
    RunKeepsInv(r, i);
    PublishedAuditsSawCurrentEvidence(r, i, w, c);
    InactiveCasesAreFrozen(r, i + 1, j, c);
  }

  /** At step `j` the absorbed Case points to the survivor, as the audit saw it at step `i`. */
  ghost predicate MergedAway(r: Run, i: nat, j: nat, w: WorkerId, survivor: CaseId, absorbed: CaseId) {
    && i < |r.states| && j < |r.states| && HasRead(r.states[i], w, absorbed) && absorbed in r.states[j].db.cases
    && var row, seen := r.states[j].db.cases[absorbed], r.states[i].audits[w][absorbed];
       && row.status == Merged && row.mergedInto == Some(survivor) && row.revision == seen.revision
       && seen.cards == Some(LinkedTo(r.states[j].db.links, absorbed))
  }

  lemma MergeStepPoints(r: Run, i: nat, w: WorkerId, survivor: CaseId, absorbed: CaseId)
    requires IsRun(r) && i < |r.actions| && r.actions[i] == PublishMerge(w, survivor, absorbed)
    ensures MergedAway(r, i, i + 1, w, survivor, absorbed)
  {
    var s, s' := r.states[i], r.states[i + 1];
    assert Next(s, r.actions[i], s');
    RunKeepsInv(r, i);
    GuardMeansCurrent(s, w, absorbed);
    MergeUnitesArticles(s.db.links, survivor, absorbed, s'.db.links);
  }

  lemma MergedAwayStays(r: Run, i: nat, w: WorkerId, survivor: CaseId, absorbed: CaseId)
    requires IsRun(r) && MergedAway(r, i, i + 1, w, survivor, absorbed)
    ensures forall j | i < j < |r.states| :: MergedAway(r, i, j, w, survivor, absorbed)
  {
    forall j | i < j < |r.states|
      ensures MergedAway(r, i, j, w, survivor, absorbed)
    {
      InactiveCasesAreFrozen(r, i + 1, j, absorbed);
    }
  }

  /** A Case that an audit merges away points to its survivor for ever, and keeps the Articles that the audit saw. */
  lemma MergingIsForEver(r: Run, i: nat, w: WorkerId, survivor: CaseId, absorbed: CaseId)
    requires IsRun(r) && i < |r.actions| && r.actions[i] == PublishMerge(w, survivor, absorbed)
    ensures forall j | i < j < |r.states| :: MergedAway(r, i, j, w, survivor, absorbed)
  {
    MergeStepPoints(r, i, w, survivor, absorbed);
    MergedAwayStays(r, i, w, survivor, absorbed);
  }

  // ---- Merge chains ----

  /** Where `steps` hops along `merged_into_case_id` lead; a Case without one stays put. */
  function Follow(cases: map<CaseId, CaseRow>, c: CaseId, steps: nat): CaseId
    decreases steps
  {
    if steps == 0 || c !in cases || cases[c].mergedInto.None? then c
    else Follow(cases, cases[c].mergedInto.value, steps - 1)
  }

  lemma {:induction false} ChainClimbs(cases: map<CaseId, CaseRow>, rank: map<CaseId, nat>, c: CaseId, top: nat)
    returns (steps: nat)
    requires RankedBy(cases, rank) && c in cases
    requires forall x | x in rank :: rank[x] <= top
    ensures Follow(cases, c, steps) in cases && cases[Follow(cases, c, steps)].mergedInto.None?
    decreases top - rank[c]
  {
    if cases[c].mergedInto.None? {
      steps := 0;
    } else {
      var rest := ChainClimbs(cases, rank, cases[c].mergedInto.value, top);
      steps := rest + 1;
    }
  }

  /** In every reachable state, following merges from any Case reaches one that is not merged. */
  lemma MergeChainsEnd(r: Run, i: nat, c: CaseId) returns (steps: nat)
    requires IsRun(r) && i < |r.states| && c in r.states[i].db.cases
    ensures var cases, last := r.states[i].db.cases, Follow(r.states[i].db.cases, c, steps);
            last in cases && cases[last].status != Merged
  {
    RunKeepsInv(r, i);
    var cases := r.states[i].db.cases;
    var rank :| RankedBy(cases, rank);
    var ranks := set x | x in rank :: rank[x];
    assert forall x | x in rank :: rank[x] in ranks;
    steps := ChainClimbs(cases, rank, c, Highest(ranks));
  }
}
