/**
 What each committed transaction leaves in the tables, told by the rows alone: which
 links, mentions, scopes and public rows there are afterwards, and what the Case
 rows say.
 */
module CommittedRows {
  import opened Collections
  import opened Wrappers
  import opened AuditOutput
  import opened Evidence
  import opened Transactions

  /** `l` and `l'` are the same layer before and after. */
  ghost predicate SameLayer(g: Graph, g': Graph, l: Layer, l': Layer) {
    (l == g.entities && l' == g'.entities) || (l == g.events && l' == g'.events)
  }

  /** A pair that some scope stands for is public, with at least that Article to count. */
  lemma ScopedPairIsPublic(l: Layer, t: Scope)
    requires ViewExact(l) && t in l.scopes
    ensures Key(t.caseId, t.item) in l.published && l.published[Key(t.caseId, t.item)].count >= 1
  {
    var k := Key(t.caseId, t.item);
    assert RowExact(l.scopes, l.published, k);
    assert t.article in Support(l.scopes, k);
  }

  lemma PublicPairIsScoped(l: Layer, k: Key) returns (t: Scope)
    requires ViewExact(l) && k in l.published
    ensures t in l.scopes && t.caseId == k.caseId && t.item == k.item
  {
    assert RowExact(l.scopes, l.published, k);
    var a := l.published[k].first;
    assert a in Support(l.scopes, k);
    t := Scope(a, k.item, k.caseId);
  }

  // ---- Case resolution ----

  /** The Article is linked to the kept and to the new Cases, and nothing else is linked or scoped. */
  lemma ResolutionLinks(g: Graph, a: Article, kept: seq<CaseId>, newIds: seq<CaseId>, now: int)
    ensures var g' := Resolved(g, a, kept, newIds, now);
            && (forall l :: l in g'.links
                  <==> l in g.links || (l.article == a && (l.caseId in kept || l.caseId in newIds)))
            && CasesOf(g'.links, a) == CasesOf(g.links, a) + Elements(kept) + Elements(newIds)
            && g'.entities == g.entities && g'.events == g.events
  {
    var g' := Resolved(g, a, kept, newIds, now);
    forall l
      ensures l in g'.links <==> l in g.links || (l.article == a && (l.caseId in kept || l.caseId in newIds))
    {
      assert l in CaseLinks(a, Elements(kept) + Elements(newIds))
        <==> l.article == a && (l.caseId in kept || l.caseId in newIds);
    }
    forall c
      ensures c in CasesOf(g'.links, a) <==> c in CasesOf(g.links, a) || c in kept || c in newIds
    {
      assert c in CasesOf(g'.links, a) <==> Link(c, a) in g'.links;
      assert c in CasesOf(g.links, a) <==> Link(c, a) in g.links;
    }
  }

  /**
   Case resolution commits a new, active Case of the one Article for every new id, one
   more Article and the next revision for every kept Case that lacked the Article, and
   nothing else.
   */
  lemma ResolutionRows(g: Graph, a: Article, kept: seq<CaseId>, newIds: seq<CaseId>, now: int)
    requires FreshCases(g, newIds) && (forall c | c in kept :: c in g.cases)
    requires forall l | l in g.links :: l.caseId in g.cases
    ensures var g' := Resolved(g, a, kept, newIds, now);
            && g'.cases.Keys == g.cases.Keys + Elements(newIds)
            && (forall c | c in newIds ::
                  g'.cases[c] == CaseRow(Active, 1, 1, 0, None, now) && LinkedTo(g'.links, c) == {a})
            && (forall c | c in g.cases :: LinkedTo(g'.links, c)
                  == LinkedTo(g.links, c) + if c in kept then {a} else {})
            && (forall c | c in g.cases ::
                  if c in kept && Link(c, a) !in g.links then
                    && g'.cases[c].articleCount == g.cases[c].articleCount + 1
                    && g'.cases[c].revision == g.cases[c].revision + 1
                    && g'.cases[c] == g.cases[c].(articleCount := g'.cases[c].articleCount,
                                                  revision := g'.cases[c].revision)
                  else g'.cases[c] == g.cases[c])
  {
    forall c
      ensures LinkedTo(Resolved(g, a, kept, newIds, now).links, c)
           == LinkedTo(g.links, c) + if c in kept || c in newIds then {a} else {}
    {
      LinkingAddsOne(g.links, a, Elements(kept) + Elements(newIds), c);
    }
    forall c | c in newIds
      ensures LinkedTo(g.links, c) == {}
    {
      assert c !in g.cases;
    }
  }

  // ---- Entity and Event resolution ----

  /** Some accepted decision resolves to the item and assigns it to the Case. */
  ghost predicate Assigns(ds: seq<Decision>, item: ItemId, c: CaseId) {
    exists d :: d in ds && !d.rejected && d.item == item && c in d.cases
  }

  /**
   The Article mentions exactly the accepted items and is scoped exactly as the accepted
   decisions assign them; the rows of other Articles stay.
   */
  lemma ResolutionScopes(l: Layer, a: Article, ds: seq<Decision>, l': Layer)
    requires Persisted(l, a, ds, l')
    ensures forall m: Mention | m.article == a ::
              m in l'.mentions <==> exists d :: d in ds && !d.rejected && d.item == m.item
    ensures forall t: Scope | t.article == a :: t in l'.scopes <==> Assigns(ds, t.item, t.caseId)
    ensures forall m: Mention | m.article != a :: m in l'.mentions <==> m in l.mentions
    ensures forall t: Scope | t.article != a :: t in l'.scopes <==> t in l.scopes
  {
    forall t: Scope | t.article == a
      ensures t in l'.scopes <==> Assigns(ds, t.item, t.caseId)
    {
      assert t in DecidedScopes(a, ds) <==> Assigns(ds, t.item, t.caseId);
    }
  }

  /** Every pair that an accepted decision assigns is public at once; a pair that no scope is left for is not. */
  lemma ResolutionPublishes(links: set<Link>, l: Layer, a: Article, ds: seq<Decision>, l': Layer, k: Key)
    requires LayerInv(l) && Provenance(links, l) && Grounded(links, a, ds) && Persisted(l, a, ds, l')
    ensures k in l'.published
       <==> Assigns(ds, k.item, k.caseId) || exists t :: t in l.scopes && t.article != a && Key(t.caseId, t.item) == k
  {
    PersistedKeepsLayer(links, l, a, ds, l');
    ResolutionScopes(l, a, ds, l');
    if k in l'.published {
      var t := PublicPairIsScoped(l', k);
      assert t.article != a ==> t in l.scopes;
    }
    if Assigns(ds, k.item, k.caseId) {
      ScopedPairIsPublic(l', Scope(a, k.item, k.caseId));
    }
    if t :| t in l.scopes && t.article != a && Key(t.caseId, t.item) == k {
      ScopedPairIsPublic(l', t);
    }
  }

  // ---- Merging ----

  /** The survivor is scoped for every mention of an Article of the absorbed Case; no other scope appears or goes. */
  lemma MergeScopes(g: Graph, survivor: CaseId, absorbed: CaseId, g': Graph, l: Layer, l': Layer)
    requires MergeReady(g, survivor, absorbed) && MergeApplied(g, survivor, absorbed, g') && SameLayer(g, g', l, l')
    ensures l'.mentions == l.mentions
    ensures forall t :: t in l'.scopes
              <==> || t in l.scopes
                   || (t.caseId == survivor && Link(absorbed, t.article) in g.links
                       && Mention(t.article, t.item) in l.mentions)
  {
    var added := MergeLinks(g.links, survivor, absorbed);
    forall t
      ensures t in Assignments(l.mentions, added)
         <==> t.caseId == survivor && Link(absorbed, t.article) in g.links && Mention(t.article, t.item) in l.mentions
    {
      AssignmentsMean(l.mentions, added, t);
      assert Link(t.caseId, t.article) in added <==> t.caseId == survivor && t.article in LinkedTo(g.links, absorbed);
      assert t.article in LinkedTo(g.links, absorbed) <==> Link(absorbed, t.article) in g.links;
    }
  }

  lemma AssignmentsMean(mentions: set<Mention>, links: set<Link>, t: Scope)
    ensures t in Assignments(mentions, links)
       <==> Mention(t.article, t.item) in mentions && Link(t.caseId, t.article) in links
  {
    var m, x := Mention(t.article, t.item), Link(t.caseId, t.article);
    if m in mentions && x in links {
      assert Scope(m.article, m.item, x.caseId) in Assignments(mentions, links);
    }
  }

  lemma MergeLayersStayExact(g: Graph, survivor: CaseId, absorbed: CaseId, g': Graph)
    requires GraphInv(g) && MergeReady(g, survivor, absorbed) && MergeApplied(g, survivor, absorbed, g')
    ensures ViewExact(g'.entities) && ViewExact(g'.events)
  {
    AttachedKeepsLayer(g.links, g.entities, MergeLinks(g.links, survivor, absorbed), g'.entities);
    AttachedKeepsLayer(g.links, g.events, MergeLinks(g.links, survivor, absorbed), g'.events);
  }

  lemma StillPublic(l: Layer, l': Layer, k: Key)
    requires ViewExact(l) && ViewExact(l') && k in l.published
    requires forall t | t in l.scopes && t.caseId == k.caseId :: t in l'.scopes
    ensures k in l'.published
  {
    var t := PublicPairIsScoped(l, k);
    ScopedPairIsPublic(l', t);
  }

  /**
   After a merge the survivor shows what it showed and what Articles of the absorbed Case
   mention; every other Case shows what it showed.
   */
  lemma MergePublishes(g: Graph, survivor: CaseId, absorbed: CaseId, g': Graph, l: Layer, l': Layer, k: Key)
    requires GraphInv(g) && MergeReady(g, survivor, absorbed) && MergeApplied(g, survivor, absorbed, g')
    requires SameLayer(g, g', l, l')
    ensures k in l'.published
       <==> || k in l.published
            || (k.caseId == survivor
                && exists m :: m in l.mentions && m.item == k.item && Link(absorbed, m.article) in g.links)
  {
    MergeLayersStayExact(g, survivor, absorbed, g');
    MergeScopes(g, survivor, absorbed, g', l, l');
    if k in l'.published {
      var t := PublicPairIsScoped(l', k);
      if t in l.scopes {
        ScopedPairIsPublic(l, t);
      } else {
        assert Mention(t.article, t.item) in l.mentions;
      }
    }
    if k in l.published {
      StillPublic(l, l', k);
    }
    if m :| m in l.mentions && m.item == k.item && Link(absorbed, m.article) in g.links && k.caseId == survivor {
      ScopedPairIsPublic(l', Scope(m.article, k.item, survivor));
    }
  }

  /** The survivor is linked to every Article of the absorbed Case; no other link appears or goes. */
  lemma MergeLinked(g: Graph, survivor: CaseId, absorbed: CaseId, g': Graph)
    requires MergeReady(g, survivor, absorbed) && MergeApplied(g, survivor, absorbed, g')
    ensures forall l :: l in g'.links
              <==> l in g.links || (l.caseId == survivor && Link(absorbed, l.article) in g.links)
  {
    forall l
      ensures l in MergeLinks(g.links, survivor, absorbed)
         <==> l.caseId == survivor && Link(absorbed, l.article) in g.links
    {
      assert l.article in LinkedTo(g.links, absorbed) <==> Link(absorbed, l.article) in g.links;
    }
  }

  /**
   The survivor takes the next revision and its counts, the absorbed Case is merged into it,
   and no other row moves.
   */
  lemma MergeRows(g: Graph, survivor: CaseId, absorbed: CaseId, g': Graph)
    requires MergeReady(g, survivor, absorbed) && MergeApplied(g, survivor, absorbed, g')
    ensures g'.cases.Keys == g.cases.Keys
    ensures forall c | c in g.cases && c !in {survivor, absorbed} :: g'.cases[c] == g.cases[c]
    ensures g'.cases[absorbed] == g.cases[absorbed].(status := Merged, mergedInto := Some(survivor))
    ensures var row := g'.cases[survivor];
            && row == g.cases[survivor].(revision := row.revision, articleCount := row.articleCount,
                                         eventCount := row.eventCount)
            && row.revision == g.cases[survivor].revision + 1
            && row.articleCount == |LinkedTo(g.links, survivor) + LinkedTo(g.links, absorbed)|
            && row.eventCount == |EventKeys(g'.events.published, survivor)|
  {
    MergeUnitesArticles(g.links, survivor, absorbed, g'.links);
  }

  // ---- Splitting ----

  /** A decisive answer is applied to Case `c`, with an unused id for every story. */
  ghost predicate Splits(g: Graph, c: CaseId, revision: nat, o: Output<Article>, newIds: seq<CaseId>, now: int,
      g': Graph) {
    && GraphInv(g) && c in g.cases && o.outcome != Inconclusive && ValidOutcome(o)
    && |o.stories| == |newIds| && FreshCases(g, newIds) && SplitApplied(g, c, revision, o, newIds, now, g')
  }

  /** Where story `j` goes: the original story stays in `c`, any other gets its own new Case. */
  ghost predicate GoesTo(c: CaseId, o: Output<Article>, newIds: seq<CaseId>, j: nat, target: CaseId)
    requires |o.stories| == |newIds|
  {
    j < |o.stories| && target == if o.stories[j].ref == "original" then c else newIds[j]
  }

  lemma StoryIsAlone(c: CaseId, o: Output<Article>, newIds: seq<CaseId>, j: nat, target: CaseId, x: Link)
    requires o.outcome != Inconclusive && ValidOutcome(o) && |o.stories| == |newIds|
    requires Distinct(newIds) && c !in newIds && GoesTo(c, o, newIds, j, target) && x.caseId == target
    ensures x in StoryLinks(c, o.stories, newIds) <==> x.article in o.stories[j].articles
  {
    assert target == Target(c, o.stories, newIds, j);
    if x in StoryLinks(c, o.stories, newIds) {
      var i: nat :| i < |o.stories| && x.article in o.stories[i].articles
          && x.caseId == Target(c, o.stories, newIds, i);
      if i != j {
        TargetsDiffer(c, o.stories, newIds, i, j);
      }
    }
  }

  lemma OtherStoryLinks(c: CaseId, o: Output<Article>, newIds: seq<CaseId>, x: Link)
    requires |o.stories| == |newIds| && forall j: nat :: !GoesTo(c, o, newIds, j, x.caseId)
    ensures x !in StoryLinks(c, o.stories, newIds)
  {
    if x in StoryLinks(c, o.stories, newIds) {
      var i: nat :| i < |o.stories| && x.article in o.stories[i].articles
          && x.caseId == Target(c, o.stories, newIds, i);
      assert GoesTo(c, o, newIds, i, x.caseId);
    }
  }

  lemma NewIdsAreNoOnes(g: Graph, newIds: seq<CaseId>, c: CaseId, l: Layer)
    requires GraphInv(g) && FreshCases(g, newIds) && c in g.cases && l in {g.entities, g.events}
    ensures c !in newIds && (forall x | x in g.links :: x.caseId !in newIds)
    ensures forall t | t in l.scopes :: t.caseId !in newIds
  {
    forall t | t in l.scopes
      ensures t.caseId !in newIds
    {
      assert Link(t.caseId, t.article) in g.links;
    }
  }

  /**
   After a split the Case of a story is scoped for exactly the mentions of that story's
   Articles; of the Cases that no story goes to only the audited one can lose scopes.
   */
  lemma SplitScopes(g: Graph, c: CaseId, revision: nat, o: Output<Article>, newIds: seq<CaseId>, now: int, g': Graph,
      l: Layer, l': Layer, t: Scope)
    requires Splits(g, c, revision, o, newIds, now, g') && SameLayer(g, g', l, l')
    ensures l'.mentions == l.mentions
    ensures forall j: nat | GoesTo(c, o, newIds, j, t.caseId) ::
              t in l'.scopes <==> t.article in o.stories[j].articles && Mention(t.article, t.item) in l.mentions
    ensures (forall j: nat :: !GoesTo(c, o, newIds, j, t.caseId)) ==>
              (t in l'.scopes <==> t in l.scopes && t.caseId != c)
  {
    var added := StoryLinks(c, o.stories, newIds);
    NewIdsAreNoOnes(g, newIds, c, l);
    AssignmentsMean(l.mentions, added, t);
    forall j: nat | GoesTo(c, o, newIds, j, t.caseId)
      ensures Link(t.caseId, t.article) in added <==> t.article in o.stories[j].articles
    {
      StoryIsAlone(c, o, newIds, j, t.caseId, Link(t.caseId, t.article));
    }
    if forall j: nat :: !GoesTo(c, o, newIds, j, t.caseId) {
      OtherStoryLinks(c, o, newIds, Link(t.caseId, t.article));
    }
  }

  lemma SplitLayersStayExact(g: Graph, c: CaseId, revision: nat, o: Output<Article>, newIds: seq<CaseId>, now: int,
      g': Graph)
    requires Splits(g, c, revision, o, newIds, now, g')
    ensures ViewExact(g'.entities) && ViewExact(g'.events)
  {
    SplitKeepsLayer(g.links, g.entities, c, StoryLinks(c, o.stories, newIds), g'.entities);
    SplitKeepsLayer(g.links, g.events, c, StoryLinks(c, o.stories, newIds), g'.events);
  }

  /** After a split the Case of a story shows exactly what its Articles mention. */
  lemma SplitPublishes(g: Graph, c: CaseId, revision: nat, o: Output<Article>, newIds: seq<CaseId>, now: int, g': Graph,
      l: Layer, l': Layer, j: nat, k: Key)
    requires Splits(g, c, revision, o, newIds, now, g') && SameLayer(g, g', l, l')
    requires GoesTo(c, o, newIds, j, k.caseId)
    ensures k in l'.published <==> exists a :: a in o.stories[j].articles && Mention(a, k.item) in l.mentions
  {
    SplitLayersStayExact(g, c, revision, o, newIds, now, g');
    if k in l'.published {
      var t := PublicPairIsScoped(l', k);
      SplitScopes(g, c, revision, o, newIds, now, g', l, l', t);
      assert t.article in o.stories[j].articles && Mention(t.article, k.item) in l.mentions;
    }
    if a :| a in o.stories[j].articles && Mention(a, k.item) in l.mentions {
      SplitScopes(g, c, revision, o, newIds, now, g', l, l', Scope(a, k.item, k.caseId));
      ScopedPairIsPublic(l', Scope(a, k.item, k.caseId));
    }
  }

  /** After a split the Case of a story is linked to exactly that story's Articles; no other Case is touched. */
  lemma SplitLinked(g: Graph, c: CaseId, revision: nat, o: Output<Article>, newIds: seq<CaseId>, now: int, g': Graph,
      x: Link)
    requires Splits(g, c, revision, o, newIds, now, g')
    ensures forall j: nat | GoesTo(c, o, newIds, j, x.caseId) :: x in g'.links <==> x.article in o.stories[j].articles
    ensures (forall j: nat :: !GoesTo(c, o, newIds, j, x.caseId)) ==> (x in g'.links <==> x in g.links && x.caseId != c)
  {
    NewIdsAreNoOnes(g, newIds, c, g.events);
    forall j: nat | GoesTo(c, o, newIds, j, x.caseId)
      ensures x in g'.links <==> x.article in o.stories[j].articles
    {
      StoryIsAlone(c, o, newIds, j, x.caseId, x);
    }
    if forall j: nat :: !GoesTo(c, o, newIds, j, x.caseId) {
      OtherStoryLinks(c, o, newIds, x);
    }
  }

  lemma GoesToATarget(c: CaseId, o: Output<Article>, newIds: seq<CaseId>, x: CaseId)
    requires |o.stories| == |newIds|
    ensures (exists j: nat :: GoesTo(c, o, newIds, j, x)) <==> x in Targets(c, o.stories, newIds)
  {
    if x in Targets(c, o.stories, newIds) {
      var j: nat :| j < |o.stories| && x == Target(c, o.stories, newIds, j);
      assert GoesTo(c, o, newIds, j, x);
    }
    if j: nat :| GoesTo(c, o, newIds, j, x) {
      assert x == Target(c, o.stories, newIds, j);
    }
  }

  /**
   The audited Case keeps its row but for its counts and its revision, which rises by one
   if the answer names a second story or detaches an Article; each other story gets a
   new active Case at its first revision; no other row moves.
   */
  lemma SplitRows(g: Graph, c: CaseId, revision: nat, o: Output<Article>, newIds: seq<CaseId>, now: int, g': Graph,
      x: CaseId)
    requires Splits(g, c, revision, o, newIds, now, g')
    ensures x in g'.cases <==> x in g.cases || exists j: nat :: GoesTo(c, o, newIds, j, x)
    ensures x in g.cases && x != c ==> g'.cases[x] == g.cases[x]
    ensures x !in g.cases && x in g'.cases ==>
              g'.cases[x] == CaseRow(Active, 1, g'.cases[x].articleCount, g'.cases[x].eventCount, None, now)
    ensures g'.cases[c].revision == revision + if |o.stories| > 1 || o.detached != [] then 1 else 0
    ensures g'.cases[c] == g.cases[c].(revision := g'.cases[c].revision, articleCount := g'.cases[c].articleCount,
                                       eventCount := g'.cases[c].eventCount)
    ensures (exists j: nat :: GoesTo(c, o, newIds, j, x)) ==>
              && g'.cases[x].articleCount == |LinkedTo(g'.links, x)|
              && g'.cases[x].eventCount == |EventKeys(g'.events.published, x)|
  {
    GoesToATarget(c, o, newIds, x);
    OriginalIsATarget(c, o, newIds);
    TargetsAreNew(c, o.stories, newIds);
    assert o.outcome == Split <==> |o.stories| > 1;
  }

  // ---- The rows that a transaction is not about ----

  /** Resolving Entities moves no other table; resolving Events moves besides only the Event counts of Cases. */
  lemma ResolutionKeepsRest(g: Graph, a: Article, ds: seq<Decision>, g': Graph)
    ensures EntitiesResolved(g, a, ds, g') ==> g' == g.(entities := g'.entities)
    ensures EventsResolved(g, a, ds, g') ==>
              && g' == g.(events := g'.events, cases := g'.cases) && g'.cases.Keys == g.cases.Keys
              && forall c | c in g.cases :: g'.cases[c] == g.cases[c].(eventCount := g'.cases[c].eventCount)
  {
  }
}
