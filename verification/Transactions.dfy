/**
 What each transaction that changes Case evidence commits, and that every
 one of them keeps the shared rows consistent.
 */
module Transactions {
  import opened Collections
  import opened Wrappers
  import opened AuditOutput
  import opened Evidence

  function NewCase(articles: nat, now: int): CaseRow {
    CaseRow(Active, 1, articles, 0, None, now)
  }

  // ---- Linking an Article (case resolution) ----

  function CaseLinks(a: Article, cases: set<CaseId>): set<Link> {
    set c | c in cases :: Link(c, a)
  }

  /** Every Case that gains the link counts it and takes a new revision, once. */
  function Bumped(cases: map<CaseId, CaseRow>, links: set<Link>, a: Article, kept: set<CaseId>): map<CaseId, CaseRow> {
    map c | c in cases ::
      if c in kept && Link(c, a) !in links then
        cases[c].(articleCount := cases[c].articleCount + 1, revision := cases[c].revision + 1)
      else cases[c]
  }

  function Created(cases: map<CaseId, CaseRow>, newIds: set<CaseId>, now: int): map<CaseId, CaseRow> {
    map c | c in cases.Keys + newIds :: if c in newIds then NewCase(1, now) else cases[c]
  }

  /** `_persist_resolution`: the kept links, and new Cases that hold only `a`. */
  function Resolved(g: Graph, a: Article, kept: seq<CaseId>, newIds: seq<CaseId>, now: int): Graph {
    Graph(Created(Bumped(g.cases, g.links, a, Elements(kept)), Elements(newIds), now),
          g.links + CaseLinks(a, Elements(kept) + Elements(newIds)), g.entities, g.events)
  }

  ghost predicate FreshCases(g: Graph, newIds: seq<CaseId>) {
    Distinct(newIds) && forall c | c in newIds :: c !in g.cases
  }

  lemma FreshIdIsUnknown(g: Graph, newIds: seq<CaseId>, i: nat)
    requires FreshCases(g, newIds) && i < |newIds|
    ensures newIds[i] !in g.cases
  {
    assert newIds[i] in newIds;
  }

  /** A public row has a supporting Article, and that Article is linked to the row's Case. */
  lemma PublicRowIsSupported(links: set<Link>, l: Layer, k: Key) returns (a: Article)
    requires ViewExact(l) && Provenance(links, l)
    requires k in l.published
    ensures Scope(a, k.item, k.caseId) in l.scopes && Link(k.caseId, a) in links
    ensures a == l.published[k].first
  {
    assert RowExact(l.scopes, l.published, k);
    a := l.published[k].first;
    assert a in Support(l.scopes, k);
  }

  lemma UnknownCaseHasNoRows(g: Graph, l: Layer, c: CaseId)
    requires forall x | x in g.links :: x.caseId in g.cases
    requires ViewExact(l) && Provenance(g.links, l)
    requires c !in g.cases
    ensures EventKeys(l.published, c) == {}
  {
    forall k | k in l.published
      ensures k.caseId in g.cases
    {
      var a := PublicRowIsSupported(g.links, l, k);
    }
  }

  /** Cases that only appear, or change other fields, keep merges acyclic. */
  lemma MergesStayAcyclic(cases: map<CaseId, CaseRow>, cases': map<CaseId, CaseRow>)
    requires MergesAcyclic(cases)
    requires cases.Keys <= cases'.Keys
    requires forall c | c in cases' ::
               if c in cases then
                 (cases'[c].status == Merged <==> cases[c].status == Merged)
                     && cases'[c].mergedInto == cases[c].mergedInto
               else cases'[c].status == Active && cases'[c].mergedInto == None
    ensures MergesAcyclic(cases')
  {
    var rank :| RankedBy(cases, rank);
    var rank' := map c | c in cases' :: if c in rank then rank[c] else 0;
    assert RankedBy(cases', rank');
  }

  /** Linking one Article adds it to the Cases named, and to no other. */
  lemma LinkingAddsOne(links: set<Link>, a: Article, cases: set<CaseId>, c: CaseId)
    ensures LinkedTo(links + CaseLinks(a, cases), c) == LinkedTo(links, c) + if c in cases then {a} else {}
    ensures a in LinkedTo(links, c) <==> Link(c, a) in links
  {
    var links' := links + CaseLinks(a, cases);
    forall x
      ensures x in LinkedTo(links', c) <==> Link(c, x) in links'
    {
    }
  }

  lemma ResolvedCountsExact(g: Graph, a: Article, kept: seq<CaseId>, newIds: seq<CaseId>, now: int)
    requires forall x | x in g.links :: x.caseId in g.cases
    requires ViewExact(g.events) && Provenance(g.links, g.events) && CountsExact(g)
    requires FreshCases(g, newIds) && forall c | c in kept :: c in g.cases
    ensures CountsExact(Resolved(g, a, kept, newIds, now))
  {
    var g' := Resolved(g, a, kept, newIds, now);
    forall c | c in g'.cases
      ensures g'.cases[c].articleCount == |LinkedTo(g'.links, c)|
      ensures g'.cases[c].eventCount == |EventKeys(g'.events.published, c)|
    {
      LinkingAddsOne(g.links, a, Elements(kept) + Elements(newIds), c);
      if c in newIds {
        assert LinkedTo(g.links, c) == {};
        UnknownCaseHasNoRows(g, g.events, c);
      }
    }
  }

  lemma ResolvedEvolves(g: Graph, a: Article, kept: seq<CaseId>, newIds: seq<CaseId>, now: int)
    requires FreshCases(g, newIds)
    requires forall c | c in kept :: c in g.cases && g.cases[c].status == Active
    ensures Evolves(g, Resolved(g, a, kept, newIds, now))
  {
    var g' := Resolved(g, a, kept, newIds, now);
    forall c | c in g.cases
      ensures CaseEvolves(g, g', c)
    {
      LinkingAddsOne(g.links, a, Elements(kept) + Elements(newIds), c);
      if Link(c, a) in g.links {
        assert LinkedTo(g'.links, c) == LinkedTo(g.links, c);
      }
    }
  }

  lemma ProvenanceGrows(links: set<Link>, links': set<Link>, l: Layer)
    requires Provenance(links, l) && links <= links'
    ensures Provenance(links', l)
  {
  }

  lemma ResolvedLinksHaveCases(g: Graph, a: Article, kept: seq<CaseId>, newIds: seq<CaseId>, now: int)
    requires (forall l | l in g.links :: l.caseId in g.cases) && forall c | c in kept :: c in g.cases
    ensures var g' := Resolved(g, a, kept, newIds, now);
            (forall l | l in g'.links :: l.caseId in g'.cases) && g.links <= g'.links
  {
    var g' := Resolved(g, a, kept, newIds, now);
    forall l | l in g'.links ensures l.caseId in g'.cases {
      if l !in g.links {
        assert l.caseId in Elements(kept) + Elements(newIds);
      }
    }
  }

  lemma ResolvedStaysAcyclic(g: Graph, a: Article, kept: seq<CaseId>, newIds: seq<CaseId>, now: int)
    requires MergesAcyclic(g.cases) && FreshCases(g, newIds)
    ensures MergesAcyclic(Resolved(g, a, kept, newIds, now).cases)
  {
    var cases := Resolved(g, a, kept, newIds, now).cases;
    forall c | c in cases
      ensures if c in g.cases then cases[c].status == g.cases[c].status && cases[c].mergedInto == g.cases[c].mergedInto
              else cases[c].status == Active && cases[c].mergedInto == None
    {
      if c in newIds {
        assert c !in g.cases;
      }
    }
    MergesStayAcyclic(g.cases, cases);
  }

  lemma ResolvedKeepsInv(g: Graph, a: Article, kept: seq<CaseId>, newIds: seq<CaseId>, now: int)
    requires GraphInv(g) && FreshCases(g, newIds)
    requires forall c | c in kept :: c in g.cases && g.cases[c].status == Active
    ensures var g' := Resolved(g, a, kept, newIds, now); GraphInv(g') && Evolves(g, g') && g.links <= g'.links
  {
    var g' := Resolved(g, a, kept, newIds, now);
    ResolvedLinksHaveCases(g, a, kept, newIds, now);
    ProvenanceGrows(g.links, g'.links, g.entities);
    ProvenanceGrows(g.links, g'.links, g.events);
    ResolvedCountsExact(g, a, kept, newIds, now);
    ResolvedEvolves(g, a, kept, newIds, now);
    ResolvedStaysAcyclic(g, a, kept, newIds, now);
  }

  // ---- Re-resolving the Entities or Events of an Article ----

  /** One accepted or rejected decision, with the identity it resolved to. */
  datatype Decision = Decision(rejected: bool, item: ItemId, cases: seq<CaseId>)

  function Accepted(ds: seq<Decision>): set<ItemId> {
    set d | d in ds && !d.rejected :: d.item
  }

  function DecidedScopes(a: Article, ds: seq<Decision>): set<Scope> {
    set d, c | d in ds && !d.rejected && c in d.cases :: Scope(a, d.item, c)
  }

  function KeysOf(scopes: set<Scope>): set<Key> {
    set t | t in scopes :: Key(t.caseId, t.item)
  }

  function ScopesOf(scopes: set<Scope>, a: Article): set<Scope> {
    set t | t in scopes && t.article == a
  }

  /** Old and new pairs of the Article, as `_persist_entities` returns them. */
  function AffectedKeys(l: Layer, a: Article, ds: seq<Decision>): set<Key> {
    KeysOf(ScopesOf(l.scopes, a)) + KeysOf(DecidedScopes(a, ds))
  }

  /** The mentions and scopes of `a` are replaced, and the affected public rows rebuilt. */
  ghost predicate Persisted(l: Layer, a: Article, ds: seq<Decision>, l': Layer) {
    && l'.mentions == (set m | m in l.mentions && m.article != a) + (set i | i in Accepted(ds) :: Mention(a, i))
    && l'.scopes == (l.scopes - ScopesOf(l.scopes, a)) + DecidedScopes(a, ds)
    && Rebuilt(l'.scopes, l.published, AffectedKeys(l, a, ds), l'.published)
  }

  /** Event counts follow the public rows of the touched Cases. */
  function Recounted(cases: map<CaseId, CaseRow>, published: map<Key, PublicRow>, touched: set<CaseId>): map<CaseId,
      CaseRow> {
    map c | c in cases :: if c in touched then cases[c].(eventCount := |EventKeys(published, c)|) else cases[c]
  }

  function CasesIn(keys: set<Key>): set<CaseId> {
    set k | k in keys :: k.caseId
  }

  ghost predicate EntitiesResolved(g: Graph, a: Article, ds: seq<Decision>, g': Graph) {
    Persisted(g.entities, a, ds, g'.entities) && g' == g.(entities := g'.entities)
  }

  ghost predicate EventsResolved(g: Graph, a: Article, ds: seq<Decision>, g': Graph) {
    && Persisted(g.events, a, ds, g'.events)
    && g' == g.(events := g'.events,
                cases := Recounted(g.cases, g'.events.published, CasesIn(AffectedKeys(g.events, a, ds))))
  }

  /** `validate_coverage`: assignments stay within the Cases the Article is linked to. */
  ghost predicate Grounded(links: set<Link>, a: Article, ds: seq<Decision>) {
    forall d, c | d in ds && c in d.cases :: Link(c, a) in links
  }

  lemma PersistedKeepsLayer(links: set<Link>, l: Layer, a: Article, ds: seq<Decision>, l': Layer)
    requires LayerInv(l) && Provenance(links, l) && Grounded(links, a, ds)
    requires Persisted(l, a, ds, l')
    ensures LayerInv(l') && Provenance(links, l')
  {
    var keys := AffectedKeys(l, a, ds);
    forall k: Key | k !in keys
      ensures Support(l.scopes, k) == Support(l'.scopes, k)
    {
      forall x
        ensures x in Support(l.scopes, k) <==> x in Support(l'.scopes, k)
      {
        var t := Scope(x, k.item, k.caseId);
        assert t in ScopesOf(l.scopes, a) + DecidedScopes(a, ds) ==> Key(t.caseId, t.item) in keys;
      }
    }
    PartialRebuildIsExact(l, keys, l');
  }

  /** Counts of untouched Cases are still right because their public rows did not move. */
  lemma RecountedIsExact(g: Graph, keys: set<Key>, g': Graph)
    requires CountsExact(g)
    requires g'.links == g.links
    requires g'.cases == Recounted(g.cases, g'.events.published, CasesIn(keys))
    requires Rebuilt(g'.events.scopes, g.events.published, keys, g'.events.published)
    ensures CountsExact(g')
  {
    forall c | c in g'.cases && c !in CasesIn(keys)
      ensures EventKeys(g'.events.published, c) == EventKeys(g.events.published, c)
    {
      forall k: Key | k.caseId == c
        ensures k in g.events.published <==> k in g'.events.published
      {
        assert k !in keys;
      }
    }
  }

  lemma EntitiesResolvedKeepsInv(g: Graph, a: Article, ds: seq<Decision>, g': Graph)
    requires GraphInv(g) && Grounded(g.links, a, ds)
    requires EntitiesResolved(g, a, ds, g')
    ensures GraphInv(g') && Evolves(g, g')
  {
    PersistedKeepsLayer(g.links, g.entities, a, ds, g'.entities);
  }

  lemma RecountedEvolves(g: Graph, touched: set<CaseId>, g': Graph)
    requires g'.links == g.links && g'.cases == Recounted(g.cases, g'.events.published, touched)
    ensures Evolves(g, g')
    ensures MergesAcyclic(g.cases) ==> MergesAcyclic(g'.cases)
  {
    if MergesAcyclic(g.cases) {
      MergesStayAcyclic(g.cases, g'.cases);
    }
  }

  lemma EventsResolvedKeepsInv(g: Graph, a: Article, ds: seq<Decision>, g': Graph)
    requires GraphInv(g) && Grounded(g.links, a, ds)
    requires EventsResolved(g, a, ds, g')
    ensures GraphInv(g') && Evolves(g, g')
  {
    var keys := AffectedKeys(g.events, a, ds);
    PersistedKeepsLayer(g.links, g.events, a, ds, g'.events);
    RecountedIsExact(g, keys, g');
    RecountedEvolves(g, CasesIn(keys), g');
  }

  // ---- Assigning Articles to Cases wholesale (splits and merges) ----

  function Assignments(mentions: set<Mention>, links: set<Link>): set<Scope> {
    set m, l | m in mentions && l in links && l.article == m.article :: Scope(m.article, m.item, l.caseId)
  }

  /** Every mention of a newly linked Article is scoped to the Case, and those rows rebuilt. */
  ghost predicate Attached(l: Layer, links: set<Link>, l': Layer) {
    && l'.mentions == l.mentions
    && l'.scopes == l.scopes + Assignments(l.mentions, links)
    && Rebuilt(l'.scopes, l.published, KeysOf(Assignments(l.mentions, links)), l'.published)
  }

  function Cleared(l: Layer, c: CaseId): Layer {
    Layer(l.mentions,
          set t | t in l.scopes && t.caseId != c,
          map k | k in l.published && k.caseId != c :: l.published[k])
  }

  lemma AttachedKeepsLayer(links: set<Link>, l: Layer, added: set<Link>, l': Layer)
    requires LayerInv(l) && Provenance(links, l)
    requires Attached(l, added, l')
    ensures LayerInv(l') && Provenance(links + added, l')
  {
    var keys := KeysOf(Assignments(l.mentions, added));
    forall k: Key | k !in keys
      ensures Support(l.scopes, k) == Support(l'.scopes, k)
    {
      forall x
        ensures x in Support(l.scopes, k) <==> x in Support(l'.scopes, k)
      {
        var t := Scope(x, k.item, k.caseId);
        assert t in Assignments(l.mentions, added) ==> Key(t.caseId, t.item) in keys;
      }
    }
    PartialRebuildIsExact(l, keys, l');
  }

  function Without(links: set<Link>, c: CaseId): set<Link> {
    set l | l in links && l.caseId != c
  }

  lemma ClearedKeepsLayer(links: set<Link>, l: Layer, c: CaseId)
    requires LayerInv(l) && Provenance(links, l)
    ensures LayerInv(Cleared(l, c))
    ensures Provenance(Without(links, c), Cleared(l, c))
  {
    var l' := Cleared(l, c);
    forall k: Key
      ensures RowExact(l'.scopes, l'.published, k)
    {
      assert RowExact(l.scopes, l.published, k);
      if k.caseId == c {
        assert Support(l'.scopes, k) == {};
      } else {
        assert Support(l'.scopes, k) == Support(l.scopes, k);
      }
    }
  }

  // ---- Splitting a Case ----

  function Target(c: CaseId, stories: seq<Story<Article>>, newIds: seq<CaseId>, j: nat): CaseId
    requires j < |stories| == |newIds|
  {
    if stories[j].ref == ORIGINAL then c else newIds[j]
  }

  /** The Cases of the first `n` stories. */
  function FirstTargets(c: CaseId, stories: seq<Story<Article>>, newIds: seq<CaseId>, n: nat): set<CaseId>
    requires n <= |stories| == |newIds|
  {
    set j | 0 <= j < n :: Target(c, stories, newIds, j)
  }

  function Targets(c: CaseId, stories: seq<Story<Article>>, newIds: seq<CaseId>): set<CaseId>
    requires |stories| == |newIds|
  {
    FirstTargets(c, stories, newIds, |stories|)
  }

  function FirstStoryLinks(c: CaseId, stories: seq<Story<Article>>, newIds: seq<CaseId>, n: nat): set<Link>
    requires n <= |stories| == |newIds|
  {
    set j, a | 0 <= j < n && a in stories[j].articles :: Link(Target(c, stories, newIds, j), a)
  }

  function StoryLinks(c: CaseId, stories: seq<Story<Article>>, newIds: seq<CaseId>): set<Link>
    requires |stories| == |newIds|
  {
    FirstStoryLinks(c, stories, newIds, |stories|)
  }

  /** A Case whose counts are read off the committed rows. */
  function Refreshed(row: CaseRow, c: CaseId, links: set<Link>, published: map<Key, PublicRow>): CaseRow {
    row.(articleCount := |LinkedTo(links, c)|, eventCount := |EventKeys(published, c)|)
  }

  predicate EvidenceChanged(o: Output<Article>) {
    o.outcome == Split || o.detached != []
  }

  function RefreshedAll(cases: map<CaseId, CaseRow>, which: set<CaseId>, links: set<Link>, published: map<Key,
      PublicRow>): map<CaseId, CaseRow> {
    map x | x in cases :: if x in which then Refreshed(cases[x], x, links, published) else cases[x]
  }

  function WithCases(cases: map<CaseId, CaseRow>, which: set<CaseId>, now: int): map<CaseId, CaseRow> {
    map x | x in cases.Keys + which :: if x in cases then cases[x] else NewCase(0, now)
  }

  /** One Case a story, all counts refreshed; the audited Case gets its next revision. */
  function SplitCases(g: Graph, c: CaseId, revision: nat, o: Output<Article>, newIds: seq<CaseId>, now: int,
      links: set<Link>, published: map<Key, PublicRow>): map<CaseId, CaseRow>
    requires c in g.cases && |o.stories| == |newIds|
  {
    var targets := Targets(c, o.stories, newIds);
    var rows := RefreshedAll(WithCases(g.cases, targets, now), targets, links, published);
    rows[c := rows[c].(revision := revision + if EvidenceChanged(o) then 1 else 0)]
  }

  /** `_apply_decisive_audit` on Case `c`. */
  ghost predicate SplitApplied(g: Graph, c: CaseId, revision: nat, o: Output<Article>, newIds: seq<CaseId>, now: int,
      g': Graph)
    requires c in g.cases && |o.stories| == |newIds|
  {
    var added := StoryLinks(c, o.stories, newIds);
    && g'.links == SplitLinks(g.links, c, o.stories, newIds)
    && Attached(Cleared(g.entities, c), added, g'.entities)
    && Attached(Cleared(g.events, c), added, g'.events)
    && g'.cases == SplitCases(g, c, revision, o, newIds, now, g'.links, g'.events.published)
  }

  // ---- Merging two Cases ----

  function MergeLinks(links: set<Link>, survivor: CaseId, absorbed: CaseId): set<Link> {
    set a | a in LinkedTo(links, absorbed) :: Link(survivor, a)
  }

  function MergedCases(g: Graph, survivor: CaseId, absorbed: CaseId,
      links: set<Link>, published: map<Key, PublicRow>): map<CaseId, CaseRow>
    requires survivor in g.cases && absorbed in g.cases
  {
    var refreshed := Refreshed(g.cases[survivor], survivor, links, published);
    g.cases[survivor := refreshed.(revision := g.cases[survivor].revision + 1)]
           [absorbed := g.cases[absorbed].(status := Merged, mergedInto := Some(survivor))]
  }

  /** `_merge_cases`. */
  ghost predicate MergeApplied(g: Graph, survivor: CaseId, absorbed: CaseId, g': Graph)
    requires survivor in g.cases && absorbed in g.cases
  {
    var added := MergeLinks(g.links, survivor, absorbed);
    && g'.links == g.links + added
    && Attached(g.entities, added, g'.entities)
    && Attached(g.events, added, g'.events)
    && g'.cases == MergedCases(g, survivor, absorbed, g'.links, g'.events.published)
  }

  // ---- Splits and merges keep the rows consistent ----

  /** New Cases get rows only through the split itself. */
  ghost predicate SplitReady(g: Graph, c: CaseId, revision: nat, o: Output<Article>, newIds: seq<CaseId>) {
    && c in g.cases && g.cases[c].status == Active && g.cases[c].revision == revision
    && |o.stories| == |newIds| && FreshCases(g, newIds)
    && o.outcome != Inconclusive && ValidOutcome(o)
    && Covers(o, LinkedTo(g.links, c))
  }

  function SplitLinks(links: set<Link>, c: CaseId, stories: seq<Story<Article>>, newIds: seq<CaseId>): set<Link>
    requires |stories| == |newIds|
  {
    Without(links, c) + StoryLinks(c, stories, newIds)
  }

  /** Story references are unique and new ids fresh, so no two stories share a Case. */
  lemma TargetsDiffer(c: CaseId, stories: seq<Story<Article>>, newIds: seq<CaseId>, i: nat, j: nat)
    requires i < |stories| == |newIds| && j < |stories| && i != j
    requires forall i, j | 0 <= i < j < |stories| :: stories[i].ref != stories[j].ref
    requires Distinct(newIds) && c !in newIds
    ensures Target(c, stories, newIds, i) != Target(c, stories, newIds, j)
  {
    assert newIds[i] in newIds && newIds[j] in newIds;
  }

  lemma StoryHoldsItsArticles(links: set<Link>, c: CaseId, stories: seq<Story<Article>>, newIds: seq<CaseId>, j: nat)
    requires j < |stories| == |newIds|
    requires forall i, j | 0 <= i < j < |stories| :: stories[i].ref != stories[j].ref
    requires Distinct(newIds) && c !in newIds && forall l | l in links :: l.caseId !in newIds
    ensures LinkedTo(SplitLinks(links, c, stories, newIds), Target(c, stories, newIds, j))
        == Elements(stories[j].articles)
  {
    var x := Target(c, stories, newIds, j);
    assert x == c || newIds[j] in newIds;
    forall i, a | 0 <= i < |stories| && a in stories[i].articles && Target(c, stories, newIds, i) == x
      ensures a in stories[j].articles
    {
      if i != j {
        TargetsDiffer(c, stories, newIds, i, j);
      }
    }
    forall a | a in stories[j].articles
      ensures a in LinkedTo(SplitLinks(links, c, stories, newIds), x)
    {
      assert Link(x, a) in StoryLinks(c, stories, newIds);
    }
  }

  lemma OtherCasesKeepTheirArticles(links: set<Link>, c: CaseId, stories: seq<Story<Article>>, newIds: seq<CaseId>,
      x: CaseId)
    requires |stories| == |newIds|
    requires x != c && x !in Targets(c, stories, newIds)
    ensures LinkedTo(SplitLinks(links, c, stories, newIds), x) == LinkedTo(links, x)
  {
    assert forall l | l in StoryLinks(c, stories, newIds) :: l.caseId != x;
  }

  lemma TargetsAreNew(c: CaseId, stories: seq<Story<Article>>, newIds: seq<CaseId>)
    requires |stories| == |newIds|
    ensures Targets(c, stories, newIds) <= {c} + Elements(newIds)
  {
  }

  lemma OriginalIsATarget(c: CaseId, o: Output<Article>, newIds: seq<CaseId>)
    requires |o.stories| == |newIds| && o.outcome != Inconclusive && ValidOutcome(o)
    ensures c in Targets(c, o.stories, newIds)
  {
    var j :| 0 <= j < |o.stories| && o.stories[j].ref == ORIGINAL;
    assert Target(c, o.stories, newIds, j) == c;
  }

  /**
   A decisive audit conserves evidence: the Cases of the stories hold exactly
   their stories' Articles, together they hold the old Article set minus the
   detached ones, and the links of every other Case are untouched.
   */
  lemma SplitConservesEvidence(g: Graph, c: CaseId, revision: nat, o: Output<Article>, newIds: seq<CaseId>,
      links': set<Link>)
    requires forall l | l in g.links :: l.caseId in g.cases
    requires SplitReady(g, c, revision, o, newIds)
    requires links' == SplitLinks(g.links, c, o.stories, newIds)
    ensures forall j | 0 <= j < |o.stories| ::
              LinkedTo(links', Target(c, o.stories, newIds, j)) == Elements(o.stories[j].articles)
    ensures (set x, a | x in Targets(c, o.stories, newIds) && a in LinkedTo(links', x) :: a)
         == LinkedTo(g.links, c) - Elements(o.detached)
    ensures forall x | x !in Targets(c, o.stories, newIds) :: LinkedTo(links', x) == LinkedTo(g.links, x)
  {
    var stories, targets := o.stories, Targets(c, o.stories, newIds);
    forall j | 0 <= j < |stories|
      ensures LinkedTo(links', Target(c, stories, newIds, j)) == Elements(stories[j].articles)
    {
      StoryHoldsItsArticles(g.links, c, stories, newIds, j);
    }
    OriginalIsATarget(c, o, newIds);
    forall x | x !in targets
      ensures LinkedTo(links', x) == LinkedTo(g.links, x)
    {
      OtherCasesKeepTheirArticles(g.links, c, stories, newIds, x);
    }
    var held := set x, a | x in targets && a in LinkedTo(links', x) :: a;
    forall a | a in held
      ensures a in Assigned(o)
    {
      var x :| x in targets && a in LinkedTo(links', x);
      var j :| 0 <= j < |stories| && Target(c, stories, newIds, j) == x;
      assert stories[j] in stories;
    }
    forall a | a in Assigned(o)
      ensures a in held
    {
      var story :| story in stories && a in story.articles;
      var j :| 0 <= j < |stories| && stories[j] == story;
      assert Target(c, stories, newIds, j) in targets;
      assert a in LinkedTo(links', Target(c, stories, newIds, j));
    }
    assert held == Assigned(o);
  }

  /** Attaching links moves the public rows of no other Case. */
  lemma AttachedKeepsRows(l: Layer, added: set<Link>, l': Layer, c: CaseId)
    requires Attached(l, added, l')
    requires forall x | x in added :: x.caseId != c
    ensures EventKeys(l'.published, c) == EventKeys(l.published, c)
  {
    forall k: Key | k.caseId == c
      ensures k in l'.published <==> k in l.published
    {
      assert k !in KeysOf(Assignments(l.mentions, added));
    }
  }

  /** The evidence and the public rows of a Case that no story goes to do not move. */
  lemma SplitKeepsOtherCases(g: Graph, c: CaseId, revision: nat, o: Output<Article>,
      newIds: seq<CaseId>, now: int, g': Graph, x: CaseId)
    requires c in g.cases && |o.stories| == |newIds| && SplitApplied(g, c, revision, o, newIds, now, g')
    requires x != c && x !in Targets(c, o.stories, newIds)
    ensures LinkedTo(g'.links, x) == LinkedTo(g.links, x)
    ensures EventKeys(g'.events.published, x) == EventKeys(g.events.published, x)
  {
    OtherCasesKeepTheirArticles(g.links, c, o.stories, newIds, x);
    AttachedKeepsRows(Cleared(g.events, c), StoryLinks(c, o.stories, newIds), g'.events, x);
    assert EventKeys(Cleared(g.events, c).published, x) == EventKeys(g.events.published, x);
  }

  lemma SplitCountsExact(g: Graph, c: CaseId, revision: nat, o: Output<Article>,
      newIds: seq<CaseId>, now: int, g': Graph)
    requires CountsExact(g) && SplitReady(g, c, revision, o, newIds)
    requires SplitApplied(g, c, revision, o, newIds, now, g')
    ensures CountsExact(g')
  {
    var targets := Targets(c, o.stories, newIds);
    OriginalIsATarget(c, o, newIds);
    forall x | x in g'.cases
      ensures CaseCountsExact(g', x)
    {
      if x in targets {
        var rows := WithCases(g.cases, targets, now);
        assert RefreshedAll(rows, targets, g'.links, g'.events.published)[x]
            == Refreshed(rows[x], x, g'.links, g'.events.published);
      } else {
        assert CaseCountsExact(g, x);
        SplitKeepsOtherCases(g, c, revision, o, newIds, now, g', x);
      }
    }
  }

  /** Without a split or a detachment the original story is the whole old Article set. */
  lemma UnchangedEvidenceStays(links: set<Link>, c: CaseId, o: Output<Article>, newIds: seq<CaseId>)
    requires |o.stories| == |newIds| && Distinct(newIds) && c !in newIds
    requires forall l | l in links :: l.caseId !in newIds
    requires o.outcome != Inconclusive && ValidOutcome(o) && Covers(o, LinkedTo(links, c))
    requires !EvidenceChanged(o)
    ensures LinkedTo(SplitLinks(links, c, o.stories, newIds), c) == LinkedTo(links, c)
  {
    assert |o.stories| == 1 && o.stories[0].ref == ORIGINAL;
    assert Target(c, o.stories, newIds, 0) == c;
    StoryHoldsItsArticles(links, c, o.stories, newIds, 0);
    assert Assigned(o) == Elements(o.stories[0].articles);
  }

  lemma SplitEvolves(g: Graph, c: CaseId, revision: nat, o: Output<Article>, newIds: seq<CaseId>, now: int, g': Graph)
    requires forall l | l in g.links :: l.caseId in g.cases
    requires SplitReady(g, c, revision, o, newIds)
    requires SplitApplied(g, c, revision, o, newIds, now, g')
    ensures Evolves(g, g')
  {
    TargetsAreNew(c, o.stories, newIds);
    OriginalIsATarget(c, o, newIds);
    forall x | x in g.cases
      ensures CaseEvolves(g, g', x)
    {
      if x != c {
        OtherCasesKeepTheirArticles(g.links, c, o.stories, newIds, x);
      } else if !EvidenceChanged(o) {
        UnchangedEvidenceStays(g.links, c, o, newIds);
      }
    }
  }

  lemma SplitKeepsLayer(links: set<Link>, l: Layer, c: CaseId, added: set<Link>, l': Layer)
    requires LayerInv(l) && Provenance(links, l)
    requires Attached(Cleared(l, c), added, l')
    ensures LayerInv(l') && Provenance(Without(links, c) + added, l')
  {
    ClearedKeepsLayer(links, l, c);
    AttachedKeepsLayer(Without(links, c), Cleared(l, c), added, l');
  }

  lemma SplitStaysAcyclic(g: Graph, c: CaseId, revision: nat, o: Output<Article>, newIds: seq<CaseId>, now: int,
      g': Graph)
    requires MergesAcyclic(g.cases) && SplitReady(g, c, revision, o, newIds)
    requires SplitApplied(g, c, revision, o, newIds, now, g')
    ensures MergesAcyclic(g'.cases)
  {
    TargetsAreNew(c, o.stories, newIds);
    MergesStayAcyclic(g.cases, g'.cases);
  }

  lemma SplitLinksHaveCases(g: Graph, c: CaseId, revision: nat, o: Output<Article>, newIds: seq<CaseId>, now: int,
      g': Graph)
    requires forall l | l in g.links :: l.caseId in g.cases
    requires c in g.cases && |o.stories| == |newIds|
    requires SplitApplied(g, c, revision, o, newIds, now, g')
    ensures forall l | l in g'.links :: l.caseId in g'.cases
  {
    assert forall l | l in StoryLinks(c, o.stories, newIds) :: l.caseId in Targets(c, o.stories, newIds);
  }

  lemma SplitKeepsInv(g: Graph, c: CaseId, revision: nat, o: Output<Article>, newIds: seq<CaseId>, now: int, g': Graph)
    requires GraphInv(g) && SplitReady(g, c, revision, o, newIds)
    requires SplitApplied(g, c, revision, o, newIds, now, g')
    ensures GraphInv(g') && Evolves(g, g')
  {
    var added := StoryLinks(c, o.stories, newIds);
    SplitKeepsLayer(g.links, g.entities, c, added, g'.entities);
    SplitKeepsLayer(g.links, g.events, c, added, g'.events);
    SplitLinksHaveCases(g, c, revision, o, newIds, now, g');
    SplitCountsExact(g, c, revision, o, newIds, now, g');
    SplitEvolves(g, c, revision, o, newIds, now, g');
    SplitStaysAcyclic(g, c, revision, o, newIds, now, g');
  }

  ghost predicate MergeReady(g: Graph, survivor: CaseId, absorbed: CaseId) {
    && survivor in g.cases && absorbed in g.cases && survivor != absorbed
    && g.cases[survivor].status == Active && g.cases[absorbed].status == Active
  }

  /** The survivor ends with exactly both Article sets; no other Case's links move. */
  lemma MergeUnitesArticles(links: set<Link>, survivor: CaseId, absorbed: CaseId, links': set<Link>)
    requires survivor != absorbed
    requires links' == links + MergeLinks(links, survivor, absorbed)
    ensures LinkedTo(links', survivor) == LinkedTo(links, survivor) + LinkedTo(links, absorbed)
    ensures forall x | x != survivor :: LinkedTo(links', x) == LinkedTo(links, x)
  {
    var gained, lost := LinkedTo(links', survivor), LinkedTo(links, survivor) + LinkedTo(links, absorbed);
    forall a | a in LinkedTo(links, absorbed)
      ensures a in LinkedTo(links', survivor)
    {
      assert Link(survivor, a) in links';
    }
    assert gained == lost;
    forall x | x != survivor
      ensures LinkedTo(links', x) == LinkedTo(links, x)
    {
    }
  }

  /** `cases'` is `cases` with `absorbed` merged into `survivor`, as far as merging goes. */
  ghost predicate MergedInto(cases: map<CaseId, CaseRow>, survivor: CaseId, absorbed: CaseId,
      cases': map<CaseId, CaseRow>) {
    && cases'.Keys == cases.Keys
    && survivor in cases && absorbed in cases && survivor != absorbed
    && cases'[absorbed].status == Merged && cases'[absorbed].mergedInto == Some(survivor)
    && (forall c | c in cases && c != absorbed ::
          cases'[c].status == cases[c].status && cases'[c].mergedInto == cases[c].mergedInto)
  }

  lemma MergeMovesOne(g: Graph, survivor: CaseId, absorbed: CaseId, g': Graph)
    requires MergeReady(g, survivor, absorbed) && MergeApplied(g, survivor, absorbed, g')
    ensures MergedInto(g.cases, survivor, absorbed, g'.cases)
  {
  }

  /** Lifting the survivor above every rank leaves room for the absorbed Case below it. */
  lemma SurvivorRanksHighest(cases: map<CaseId, CaseRow>, rank: map<CaseId, nat>, survivor: CaseId, absorbed: CaseId,
      top: nat, cases': map<CaseId, CaseRow>)
    requires RankedBy(cases, rank) && MergedInto(cases, survivor, absorbed, cases')
    requires cases[survivor].mergedInto.None? && forall c | c in rank :: rank[c] <= top
    ensures RankedBy(cases', rank[survivor := top + 1])
  {
  }

  lemma MergeStaysAcyclic(cases: map<CaseId, CaseRow>, survivor: CaseId, absorbed: CaseId, cases': map<CaseId, CaseRow>)
    requires MergesAcyclic(cases) && MergedInto(cases, survivor, absorbed, cases') && cases[survivor].status == Active
    ensures MergesAcyclic(cases')
  {
    var rank :| RankedBy(cases, rank);
    var ranks := set c | c in rank :: rank[c];
    var top := Highest(ranks);
    assert forall c | c in rank :: rank[c] in ranks;
    SurvivorRanksHighest(cases, rank, survivor, absorbed, top, cases');
  }

  ghost function Highest(ranks: set<nat>): (top: nat)
    ensures forall r | r in ranks :: r <= top
  {
    if ranks == {} then 0
    else
      var r :| r in ranks;
      var top := Highest(ranks - {r});
      assert forall x | x in ranks :: x == r || x in ranks - {r};
      if r <= top then top else r
  }

  lemma MergeCountsExact(g: Graph, survivor: CaseId, absorbed: CaseId, g': Graph)
    requires CountsExact(g) && MergeReady(g, survivor, absorbed)
    requires MergeApplied(g, survivor, absorbed, g')
    ensures CountsExact(g')
  {
    forall x | x in g'.cases
      ensures CaseCountsExact(g', x)
    {
      MergeUnitesArticles(g.links, survivor, absorbed, g'.links);
      assert CaseCountsExact(g, x);
      if x != survivor {
        AttachedKeepsRows(g.events, MergeLinks(g.links, survivor, absorbed), g'.events, x);
      }
    }
  }

  lemma MergeEvolves(g: Graph, survivor: CaseId, absorbed: CaseId, g': Graph)
    requires MergeReady(g, survivor, absorbed)
    requires MergeApplied(g, survivor, absorbed, g')
    ensures Evolves(g, g')
  {
    MergeUnitesArticles(g.links, survivor, absorbed, g'.links);
  }

  lemma MergeKeepsInv(g: Graph, survivor: CaseId, absorbed: CaseId, g': Graph)
    requires GraphInv(g) && MergeReady(g, survivor, absorbed)
    requires MergeApplied(g, survivor, absorbed, g')
    ensures GraphInv(g') && Evolves(g, g') && g.links <= g'.links
  {
    var added := MergeLinks(g.links, survivor, absorbed);
    AttachedKeepsLayer(g.links, g.entities, added, g'.entities);
    AttachedKeepsLayer(g.links, g.events, added, g'.events);
    MergeCountsExact(g, survivor, absorbed, g');
    MergeEvolves(g, survivor, absorbed, g');
    MergeMovesOne(g, survivor, absorbed, g');
    MergeStaysAcyclic(g.cases, survivor, absorbed, g'.cases);
  }

  // ---- Hiding a Case ----

  function HiddenCase(g: Graph, c: CaseId): Graph
    requires c in g.cases
  {
    g.(cases := g.cases[c := g.cases[c].(status := Hidden)])
  }

  lemma HiddenCaseKeepsInv(g: Graph, c: CaseId)
    requires GraphInv(g) && c in g.cases && g.cases[c].status == Active
    ensures GraphInv(HiddenCase(g, c)) && Evolves(g, HiddenCase(g, c))
  {
    MergesStayAcyclic(g.cases, HiddenCase(g, c).cases);
  }
}
