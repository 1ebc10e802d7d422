/**
 The two accounts of Case evidence agree: what each transaction does to the tables
 row by row is a step of the protocol from the same state. Whatever holds in every
 run of the protocol therefore holds of the tables.
 */
module CaseRefinement {
  import opened Wrappers
  import opened AuditOutput
  import opened Evidence
  import opened Transactions
  import opened CaseProtocol
  import opened CaseStore

  /** The tables hold the rows of a protocol state in which the invariant holds. */
  ghost predicate Holds(tables: CaseTables, s: Sys)
    reads tables, tables.entities, tables.events
  {
    tables.Valid() && tables.View() == s.db && Inv(s)
  }

  /** What the try-locks of a publishing audit find. */
  ghost predicate FoundLocks(locks: Locks, s: Sys) {
    locks == Locks(s.caseLock.NoHolder?, s.entityLock.None?, s.eventLock.None?)
  }

  /** The audit has read the revision and the cards of a Case. */
  ghost predicate HasCards(s: Sys, w: WorkerId, c: CaseId, revision: nat) {
    HasRead(s, w, c) && s.audits[w][c].cards.Some? && s.audits[w][c].revision == revision
  }

  /** The answer passed the coverage test against the cards that the audit read. */
  ghost predicate AnswerCovers(s: Sys, w: WorkerId, c: CaseId, o: Output<Article>) {
    && HasRead(s, w, c) && s.audits[w][c].cards.Some? && ValidOutcome(o)
    && (o.outcome == Inconclusive || Covers(o, s.audits[w][c].cards.value))
  }

  /** A coherence audit publishes its split as the protocol does, or drops out; it never fails. */
  method PublishCoherence(tables: CaseTables, ghost s: Sys, locks: Locks, ghost w: WorkerId, c: CaseId,
      revision: nat, o: Output<Article>, newIds: seq<CaseId>, now: int)
    returns (p: Publication, ghost s': Sys)
    requires Holds(tables, s) && FoundLocks(locks, s)
    requires HasCards(s, w, c, revision) && AnswerCovers(s, w, c, o)
    requires |o.stories| == |newIds| && FreshCases(s.db, newIds)
    modifies tables, tables.entities, tables.events
    ensures p != Failed
    ensures p == Published <==> AllLocksFree(s) && Unchanged(s, w, c) && o.outcome != Inconclusive
    ensures Next(s, if p == Published then PublishSplit(w, c, o, newIds, now) else DropAudit(w), s')
    ensures Holds(tables, s')
  {
    p := tables.PublishCoherence(locks, c, revision, o, newIds, now);
    s' := Done(s, w, tables.View());
    if Unchanged(s, w, c) {
      GuardMeansCurrent(s, w, c);
    }
    StepKeepsInv(s, if p == Published then PublishSplit(w, c, o, newIds, now) else DropAudit(w), s');
  }

  /** A public-interest audit hides its Case as the protocol does, or drops out. */
  method PublishInterest(tables: CaseTables, ghost s: Sys, locks: Locks, ghost w: WorkerId, c: CaseId,
      revision: nat, outcome: InterestOutcome)
    returns (p: Publication, ghost s': Sys)
    requires Holds(tables, s) && FoundLocks(locks, s) && HasCards(s, w, c, revision)
    modifies tables
    ensures p != Failed
    ensures p == Published <==> s.caseLock.NoHolder? && Unchanged(s, w, c) && outcome == Hide
    ensures Next(s, if p == Published then PublishHide(w, c) else DropAudit(w), s')
    ensures Holds(tables, s')
  {
    p := tables.PublishInterest(locks, c, revision, outcome);
    s' := Done(s, w, tables.View());
    StepKeepsInv(s, if p == Published then PublishHide(w, c) else DropAudit(w), s');
  }

  /** The merge that a pair of Cases stands for; of a Case that is gone it is never asked. */
  ghost function PairMerge(s: Sys, w: WorkerId, a: CaseId, b: CaseId): Action {
    if a in s.db.cases && b in s.db.cases then
      PublishMerge(w, Survivor(s.db.cases, a, b), Absorbed(s.db.cases, a, b))
    else DropAudit(w)
  }

  lemma MergeIsAStep(s: Sys, w: WorkerId, a: CaseId, b: CaseId, db: Graph)
    requires AllLocksFree(s) && Unchanged(s, w, a) && Unchanged(s, w, b) && a != b
    requires MergeApplied(s.db, Survivor(s.db.cases, a, b), Absorbed(s.db.cases, a, b), db)
    ensures Next(s, PairMerge(s, w, a, b), Done(s, w, db))
  {
    MergeOrderIsSymmetric(s.db.cases, a, b);
  }

  /** A duplicate audit merges its pair as the protocol does, or drops out. */
  method PublishPair(tables: CaseTables, ghost s: Sys, locks: Locks, ghost w: WorkerId, a: CaseId, b: CaseId,
      revisionA: nat, revisionB: nat, outcome: DuplicateOutcome)
    returns (p: Publication, ghost s': Sys)
    requires Holds(tables, s) && FoundLocks(locks, s) && a != b
    requires HasCards(s, w, a, revisionA) && HasCards(s, w, b, revisionB)
    modifies tables, tables.entities, tables.events
    ensures p != Failed
    ensures p == Published <==> AllLocksFree(s) && Unchanged(s, w, a) && Unchanged(s, w, b) && outcome == Merge
    ensures Next(s, if p == Published then PairMerge(s, w, a, b) else DropAudit(w), s')
    ensures Holds(tables, s')
  {
    p := tables.PublishPair(locks, a, b, revisionA, revisionB, outcome);
    s' := Done(s, w, tables.View());
    if p == Published {
      MergeIsAStep(s, w, a, b, tables.View());
      StepKeepsInv(s, PairMerge(s, w, a, b), s');
    } else {
      StepKeepsInv(s, DropAudit(w), s');
    }
  }

  /** Case resolution commits as the protocol does, or releases the lock if it names a Case that is no candidate. */
  method CommitResolution(tables: CaseTables, ghost s: Sys, a: Article, candidates: set<CaseId>,
      kept: seq<CaseId>, newIds: seq<CaseId>, now: int)
    returns (ok: bool, ghost s': Sys)
    requires Holds(tables, s) && s.caseLock == Resolving(a, candidates) && FreshCases(s.db, newIds)
    modifies tables
    ensures ok <==> forall c | c in kept :: c in candidates
    ensures Next(s, if ok then CommitResolve(kept, newIds, now) else ReleaseCaseLock, s')
    ensures Holds(tables, s')
  {
    ok := tables.PersistResolution(a, candidates, kept, newIds, now);
    s' := s.(db := tables.View(), caseLock := NoHolder);
    StepKeepsInv(s, if ok then CommitResolve(kept, newIds, now) else ReleaseCaseLock, s');
  }

  /** The decisions name Cases that the open resolution has read. */
  ghost predicate Within(ds: seq<Decision>, cases: set<CaseId>) {
    forall d, c | d in ds && c in d.cases :: c in cases
  }

  /** Entity resolution commits as the protocol does. */
  method CommitEntityLinks(tables: CaseTables, ghost s: Sys, a: Article, ghost cases: set<CaseId>, ds: seq<Decision>)
    returns (ghost s': Sys)
    requires Holds(tables, s) && s.entityLock == Some(IdentityTxn(a, cases)) && Within(ds, cases)
    modifies tables.entities
    ensures Next(s, CommitEntities(ds), s') && Holds(tables, s')
  {
    tables.ResolveEntities(a, ds);
    s' := s.(db := tables.View(), entityLock := None);
    StepKeepsInv(s, CommitEntities(ds), s');
  }

  /** Event resolution commits as the protocol does. */
  method CommitEventLinks(tables: CaseTables, ghost s: Sys, a: Article, ghost cases: set<CaseId>, ds: seq<Decision>)
    returns (ghost s': Sys)
    requires Holds(tables, s) && s.eventLock == Some(IdentityTxn(a, cases)) && Within(ds, cases)
    modifies tables, tables.events
    ensures Next(s, CommitEvents(ds), s') && Holds(tables, s')
  {
    tables.ResolveEvents(a, ds);
    s' := s.(db := tables.View(), eventLock := None);
    StepKeepsInv(s, CommitEvents(ds), s');
  }
}
