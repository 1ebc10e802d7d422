/**
 Every interleaving of the jobs that change Case evidence. Case, Entity and
 Event mutation each have one lock, held until commit; identity and case
 resolution hold theirs across a slow model call, so other transactions commit
 in between. Audits read without locks, in separate statements, and publish
 later under try-locks.
 */
module CaseProtocol {
  import opened Wrappers
  import opened AuditOutput
  import opened Evidence
  import opened Transactions

  type WorkerId = nat

  /** The open transaction that holds the Case lock. */
  datatype CaseHolder = NoHolder | Resolving(article: Article, candidates: set<CaseId>) | Refreshing(caseId: CaseId)

  /** An open Entity or Event resolution, with the linked Cases it read. */
  datatype IdentityTxn = IdentityTxn(article: Article, cases: set<CaseId>)

  /** What an audit has read about one Case: the revision first, the cards later. */
  datatype Seen = Seen(revision: nat, cards: Option<set<Article>>)

  datatype Sys = Sys(
    db: Graph,
    caseLock: CaseHolder,
    entityLock: Option<IdentityTxn>,
    eventLock: Option<IdentityTxn>,
    audits: map<WorkerId, map<CaseId, Seen>>)

  datatype Action =
    | BeginResolve(article: Article, candidates: set<CaseId>)
    | CommitResolve(kept: seq<CaseId>, newIds: seq<CaseId>, now: int)
    | BeginRefresh(caseId: CaseId)
    | ReleaseCaseLock
    | BeginEntities(article: Article)
    | CommitEntities(decisions: seq<Decision>)
    | AbortEntities
    | BeginEvents(article: Article)
    | CommitEvents(decisions: seq<Decision>)
    | AbortEvents
    | ReadRow(worker: WorkerId, caseId: CaseId)
    | ReadCards(worker: WorkerId, caseId: CaseId)
    | DropAudit(worker: WorkerId)
    | PublishSplit(worker: WorkerId, caseId: CaseId, output: Output<Article>, newIds: seq<CaseId>, now: int)
    | PublishHide(worker: WorkerId, caseId: CaseId)
    | PublishMerge(worker: WorkerId, survivor: CaseId, absorbed: CaseId)

  predicate IsActive(g: Graph, c: CaseId) {
    c in g.cases && g.cases[c].status == Active
  }

  predicate HasRead(s: Sys, w: WorkerId, c: CaseId) {
    w in s.audits && c in s.audits[w]
  }

  /** The publishing guard: the Case is active and its revision is the one the audit read. */
  predicate Unchanged(s: Sys, w: WorkerId, c: CaseId) {
    HasRead(s, w, c) && IsActive(s.db, c) && s.audits[w][c].cards.Some?
        && s.db.cases[c].revision == s.audits[w][c].revision
  }

  predicate AllLocksFree(s: Sys) {
    s.caseLock.NoHolder? && s.entityLock.None? && s.eventLock.None?
  }

  function Done(s: Sys, w: WorkerId, g: Graph): Sys {
    s.(db := g, audits := s.audits - {w})
  }

  ghost predicate Init(s: Sys) {
    s == Sys(Graph(map[], {}, Layer({}, {}, map[]), Layer({}, {}, map[])), NoHolder, None, None, map[])
  }

  ghost predicate Next(s: Sys, action: Action, s': Sys) {
    match action
    case BeginResolve(a, candidates) =>
      && s.caseLock.NoHolder? && CasesOf(s.db.links, a) == {}
      && (forall c | c in candidates :: IsActive(s.db, c))
      && s' == s.(caseLock := Resolving(a, candidates))
    case CommitResolve(kept, newIds, now) =>
      && s.caseLock.Resolving? && (forall c | c in kept :: c in s.caseLock.candidates) && FreshCases(s.db, newIds)
      && s' == s.(db := Resolved(s.db, s.caseLock.article, kept, newIds, now), caseLock := NoHolder)
    case BeginRefresh(c) =>
      s.caseLock.NoHolder? && c in s.db.cases && s' == s.(caseLock := Refreshing(c))
    case ReleaseCaseLock =>
      !s.caseLock.NoHolder? && s' == s.(caseLock := NoHolder)
    case BeginEntities(a) =>
      && s.entityLock.None? && CasesOf(s.db.links, a) != {}
      && s' == s.(entityLock := Some(IdentityTxn(a, CasesOf(s.db.links, a))))
    case CommitEntities(ds) =>
      && s.entityLock.Some? && (forall d, c | d in ds && c in d.cases :: c in s.entityLock.value.cases)
      && EntitiesResolved(s.db, s.entityLock.value.article, ds, s'.db)
      && s' == s.(db := s'.db, entityLock := None)
    case AbortEntities =>
      s.entityLock.Some? && s' == s.(entityLock := None)
    case BeginEvents(a) =>
      && s.eventLock.None? && CasesOf(s.db.links, a) != {}
      && s' == s.(eventLock := Some(IdentityTxn(a, CasesOf(s.db.links, a))))
    case CommitEvents(ds) =>
      && s.eventLock.Some? && (forall d, c | d in ds && c in d.cases :: c in s.eventLock.value.cases)
      && EventsResolved(s.db, s.eventLock.value.article, ds, s'.db)
      && s' == s.(db := s'.db, eventLock := None)
    case AbortEvents =>
      s.eventLock.Some? && s' == s.(eventLock := None)
    case ReadRow(w, c) =>
      var seen := if w in s.audits then s.audits[w] else map[];
      && IsActive(s.db, c) && c !in seen
      && s' == s.(audits := s.audits[w := seen[c := Seen(s.db.cases[c].revision, None)]])
    case ReadCards(w, c) =>
      && HasRead(s, w, c) && s.audits[w][c].cards.None?
      && s' == s.(audits := s.audits[w := s.audits[w][c := s.audits[w][c].(cards := Some(LinkedTo(s.db.links, c)))]])
    case DropAudit(w) =>
      s' == Done(s, w, s.db)
    case PublishSplit(w, c, o, newIds, now) =>
      && AllLocksFree(s) && Unchanged(s, w, c)
      && o.outcome != Inconclusive && ValidOutcome(o) && Covers(o, s.audits[w][c].cards.value)
      && |newIds| == |o.stories| && FreshCases(s.db, newIds)
      && SplitApplied(s.db, c, s.audits[w][c].revision, o, newIds, now, s'.db)
      && s' == Done(s, w, s'.db)
    case PublishHide(w, c) =>
      && s.caseLock.NoHolder? && Unchanged(s, w, c)
      && s' == Done(s, w, HiddenCase(s.db, c))
    case PublishMerge(w, survivor, absorbed) =>
      && AllLocksFree(s) && survivor != absorbed && Unchanged(s, w, survivor) && Unchanged(s, w, absorbed)
      && MergeApplied(s.db, survivor, absorbed, s'.db)
      && s' == Done(s, w, s'.db)
  }

  // ---- The invariant ----

  /** A snapshot of linked Cases stays a subset of the current ones: nothing unlinks while the lock is held. */
  ghost predicate IdentityInv(links: set<Link>, txn: Option<IdentityTxn>) {
    txn.Some? ==> txn.value.cases <= CasesOf(links, txn.value.article)
  }

  /** What an audit read is stale only if the revision has moved on. */
  ghost predicate SeenInv(g: Graph, c: CaseId, seen: Seen) {
    && c in g.cases
    && seen.revision <= g.cases[c].revision
    && (seen.cards.Some? && seen.revision == g.cases[c].revision ==> seen.cards.value == LinkedTo(g.links, c))
  }

  ghost predicate AuditsInv(g: Graph, audits: map<WorkerId, map<CaseId, Seen>>) {
    forall w, c | w in audits && c in audits[w] :: SeenInv(g, c, audits[w][c])
  }

  /** While case resolution holds the lock its candidates stay active and its Article unlinked. */
  ghost predicate HolderInv(g: Graph, holder: CaseHolder) {
    holder.Resolving? ==>
      && (forall c | c in holder.candidates :: IsActive(g, c))
      && CasesOf(g.links, holder.article) == {}
  }

  ghost predicate Inv(s: Sys) {
    && GraphInv(s.db)
    && HolderInv(s.db, s.caseLock)
    && IdentityInv(s.db.links, s.entityLock)
    && IdentityInv(s.db.links, s.eventLock)
    && AuditsInv(s.db, s.audits)
  }

  lemma InitHolds(s: Sys)
    requires Init(s)
    ensures Inv(s)
  {
    var rank: map<CaseId, nat> := map[];
    assert RankedBy(s.db.cases, rank);
    forall k: Key
      ensures RowExact({}, map[], k)
    {
      assert Support({}, k) == {};
    }
  }

  /** Reads stay justified by whatever commits. */
  lemma AuditsSurvive(g: Graph, g': Graph, audits: map<WorkerId, map<CaseId, Seen>>)
    requires AuditsInv(g, audits) && Evolves(g, g')
    ensures AuditsInv(g', audits)
  {
    forall w, c | w in audits && c in audits[w]
      ensures SeenInv(g', c, audits[w][c])
    {
      assert SeenInv(g, c, audits[w][c]) && CaseEvolves(g, g', c);
    }
  }

  lemma SnapshotsSurvive(links: set<Link>, links': set<Link>, txn: Option<IdentityTxn>)
    requires IdentityInv(links, txn) && links <= links'
    ensures IdentityInv(links', txn)
  {
  }

  /** The publishing guard implies that the audit saw the current Articles. */
  lemma GuardMeansCurrent(s: Sys, w: WorkerId, c: CaseId)
    requires AuditsInv(s.db, s.audits) && Unchanged(s, w, c)
    ensures s.audits[w][c].cards == Some(LinkedTo(s.db.links, c))
  {
    assert SeenInv(s.db, c, s.audits[w][c]);
  }

  lemma SnapshotGroundsDecisions(links: set<Link>, txn: IdentityTxn, ds: seq<Decision>)
    requires IdentityInv(links, Some(txn))
    requires forall d, c | d in ds && c in d.cases :: c in txn.cases
    ensures Grounded(links, txn.article, ds)
  {
    forall d, c | d in ds && c in d.cases
      ensures Link(c, txn.article) in links
    {
      assert c in CasesOf(links, txn.article);
    }
  }

  /** What a step does to the shared rows, by itself. */
  lemma StepKeepsGraph(s: Sys, action: Action, s': Sys)
    requires Inv(s) && Next(s, action, s')
    ensures GraphInv(s'.db) && Evolves(s.db, s'.db)
  {
    match action
    case CommitResolve(kept, newIds, now) =>
      ResolvedKeepsInv(s.db, s.caseLock.article, kept, newIds, now);
    case CommitEntities(ds) =>
      SnapshotGroundsDecisions(s.db.links, s.entityLock.value, ds);
      EntitiesResolvedKeepsInv(s.db, s.entityLock.value.article, ds, s'.db);
    case CommitEvents(ds) =>
      SnapshotGroundsDecisions(s.db.links, s.eventLock.value, ds);
      EventsResolvedKeepsInv(s.db, s.eventLock.value.article, ds, s'.db);
    case PublishSplit(w, c, o, newIds, now) =>
      GuardMeansCurrent(s, w, c);
      SplitKeepsInv(s.db, c, s.audits[w][c].revision, o, newIds, now, s'.db);
    case PublishHide(w, c) =>
      HiddenCaseKeepsInv(s.db, c);
    case PublishMerge(w, survivor, absorbed) =>
      MergeKeepsInv(s.db, survivor, absorbed, s'.db);
    case _ =>
  }

  /** Only the two reads add to what audits have seen, and they see what is there. */
  lemma NewlySeen(s: Sys, action: Action, s': Sys, w: WorkerId, c: CaseId)
    requires Inv(s) && Next(s, action, s') && HasRead(s', w, c)
    ensures || (HasRead(s, w, c) && s'.audits[w][c] == s.audits[w][c])
            || (s'.db == s.db && SeenInv(s.db, c, s'.audits[w][c]))
  {
    if action.ReadCards? && w == action.worker && c == action.caseId {
      assert SeenInv(s.db, c, s.audits[w][c]);
    }
  }

  lemma StepKeepsAudits(s: Sys, action: Action, s': Sys)
    requires Inv(s) && Next(s, action, s') && Evolves(s.db, s'.db)
    ensures AuditsInv(s'.db, s'.audits)
  {
    AuditsSurvive(s.db, s'.db, s.audits);
    forall w, c | w in s'.audits && c in s'.audits[w]
      ensures SeenInv(s'.db, c, s'.audits[w][c])
    {
      NewlySeen(s, action, s', w, c);
    }
  }

  lemma OnlySplitsUnlink(s: Sys, action: Action, s': Sys)
    requires Next(s, action, s') && !action.PublishSplit?
    ensures s.db.links <= s'.db.links
  {
  }

  /** Only a split removes links, and it runs while no identity or case resolution is open. */
  lemma StepKeepsSnapshots(s: Sys, action: Action, s': Sys)
    requires Inv(s) && Next(s, action, s')
    ensures IdentityInv(s'.db.links, s'.entityLock) && IdentityInv(s'.db.links, s'.eventLock)
  {
    if !action.PublishSplit? {
      OnlySplitsUnlink(s, action, s');
      SnapshotsSurvive(s.db.links, s'.db.links, s.entityLock);
      SnapshotsSurvive(s.db.links, s'.db.links, s.eventLock);
    }
  }

  /** While case resolution holds the lock nothing hides, merges or splits a Case, or links its Article. */
  lemma StepKeepsHolder(s: Sys, action: Action, s': Sys)
    requires Inv(s) && Next(s, action, s')
    ensures HolderInv(s'.db, s'.caseLock)
  {
  }

  lemma StepKeepsInv(s: Sys, action: Action, s': Sys)
    requires Inv(s) && Next(s, action, s')
    ensures Inv(s') && Evolves(s.db, s'.db)
  {
    StepKeepsGraph(s, action, s');
    StepKeepsAudits(s, action, s');
    StepKeepsSnapshots(s, action, s');
    StepKeepsHolder(s, action, s');
  }
}
