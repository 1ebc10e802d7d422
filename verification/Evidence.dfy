/**
 The rows that the concurrent Case jobs share, as one value, and what each
 committed transaction does to them.
 */
module Evidence {
  import opened Wrappers

  datatype CaseId = CaseId(uuid: nat)

  /** An Entity or an Event. */
  datatype ItemId = ItemId(uuid: nat)

  /** An Article row; its dates never change. */
  datatype Article = Article(uuid: nat, published: Option<int>, created: int)

  /** `ORDER BY published_at ASC NULLS LAST, created_at ASC`. */
  predicate NotAfter(a: Article, b: Article) {
    match (a.published, b.published)
    case (Some(x), Some(y)) => x < y || (x == y && a.created <= b.created)
    case (Some(_), None) => true
    case (None, Some(_)) => false
    case (None, None) => a.created <= b.created
  }

  datatype Link = Link(caseId: CaseId, article: Article)
  datatype Mention = Mention(article: Article, item: ItemId)
  datatype Scope = Scope(article: Article, item: ItemId, caseId: CaseId)
  datatype Key = Key(caseId: CaseId, item: ItemId)
  datatype PublicRow = PublicRow(first: Article, count: nat)

  /**
   One identity layer. For Entities the three tables are ArticleEntity,
   ArticleEntityCase and CaseEntity; for Events their Event counterparts.
   */
  datatype Layer = Layer(
    mentions: set<Mention>,
    scopes: set<Scope>,
    published: map<Key, PublicRow>)

  datatype Status = Active | Hidden | Merged

  datatype CaseRow = CaseRow(
    status: Status,
    revision: nat,
    articleCount: nat,
    eventCount: nat,
    mergedInto: Option<CaseId>,
    created: int)

  datatype Graph = Graph(
    cases: map<CaseId, CaseRow>,
    links: set<Link>,
    entities: Layer,
    events: Layer)

  function LinkedTo(links: set<Link>, c: CaseId): set<Article> {
    set l | l in links && l.caseId == c :: l.article
  }

  function CasesOf(links: set<Link>, a: Article): set<CaseId> {
    set l | l in links && l.article == a :: l.caseId
  }

  // ---- The materialised views ----

  /** The Articles that put item `k.item` into Case `k.caseId`. */
  function Support(scopes: set<Scope>, k: Key): set<Article> {
    set t | t in scopes && t.item == k.item && t.caseId == k.caseId :: t.article
  }

  predicate IsFirst(a: Article, s: set<Article>) {
    a in s && forall b | b in s :: NotAfter(a, b)
  }

  /** Row `k` of the view is what a recomputation from the scopes gives. */
  ghost predicate RowExact(scopes: set<Scope>, published: map<Key, PublicRow>, k: Key) {
    var s := Support(scopes, k);
    if s == {} then k !in published
    else k in published && published[k].count == |s| && IsFirst(published[k].first, s)
  }

  ghost predicate ViewExact(l: Layer) {
    forall k: Key :: RowExact(l.scopes, l.published, k)
  }

  /** `rebuild_case_entities` and `rebuild_case_events` on `keys`; ties for first place are free. */
  ghost predicate Rebuilt(scopes: set<Scope>, before: map<Key, PublicRow>, keys: set<Key>, after: map<Key, PublicRow>) {
    && (forall k: Key | k in keys :: RowExact(scopes, after, k))
    && (forall k: Key | k !in keys :: (k in before <==> k in after) && (k in before ==> before[k] == after[k]))
  }

  function EventKeys(published: map<Key, PublicRow>, c: CaseId): set<Key> {
    set k | k in published.Keys && k.caseId == c
  }

  // ---- What every committed state satisfies ----

  /** The foreign key of a scope, and the exactness of the view. */
  ghost predicate LayerInv(l: Layer) {
    && (forall t | t in l.scopes :: Mention(t.article, t.item) in l.mentions)
    && ViewExact(l)
  }

  /** Each scope row of a Case belongs to an Article linked to that Case. */
  ghost predicate Provenance(links: set<Link>, l: Layer) {
    forall t | t in l.scopes :: Link(t.caseId, t.article) in links
  }

  predicate CaseCountsExact(g: Graph, c: CaseId)
    requires c in g.cases
  {
    && g.cases[c].articleCount == |LinkedTo(g.links, c)|
    && g.cases[c].eventCount == |EventKeys(g.events.published, c)|
  }

  ghost predicate CountsExact(g: Graph) {
    forall c | c in g.cases :: CaseCountsExact(g, c)
  }

  /** `rank` strictly grows along every `merged_into_case_id`. */
  ghost predicate RankedBy(cases: map<CaseId, CaseRow>, rank: map<CaseId, nat>) {
    && rank.Keys == cases.Keys
    && forall c | c in cases && cases[c].mergedInto.Some? ::
         cases[c].mergedInto.value in cases && rank[c] < rank[cases[c].mergedInto.value]
  }

  ghost predicate MergesAcyclic(cases: map<CaseId, CaseRow>) {
    && (forall c | c in cases :: cases[c].status == Merged <==> cases[c].mergedInto.Some?)
    && exists rank :: RankedBy(cases, rank)
  }

  ghost predicate GraphInv(g: Graph) {
    && (forall l | l in g.links :: l.caseId in g.cases)
    && LayerInv(g.entities) && LayerInv(g.events)
    && Provenance(g.links, g.entities) && Provenance(g.links, g.events)
    && CountsExact(g)
    && MergesAcyclic(g.cases)
  }

  // ---- How evidence may change ----

  /**
   Revisions never decrease, a changed Article set raises the revision, and a
   Case that is no longer active is frozen.
   */
  ghost predicate CaseEvolves(g: Graph, g': Graph, c: CaseId)
    requires c in g.cases
  {
    && c in g'.cases
    && g.cases[c].revision <= g'.cases[c].revision
    && (LinkedTo(g.links, c) != LinkedTo(g'.links, c) ==> g.cases[c].revision < g'.cases[c].revision)
    && (g.cases[c].status != Active ==>
          && g'.cases[c].status == g.cases[c].status
          && g'.cases[c].mergedInto == g.cases[c].mergedInto
          && g'.cases[c].revision == g.cases[c].revision)
  }

  ghost predicate Evolves(g: Graph, g': Graph) {
    forall c | c in g.cases :: CaseEvolves(g, g', c)
  }

  lemma EvolvesTransitive(g: Graph, g': Graph, g'': Graph)
    requires Evolves(g, g') && Evolves(g', g'')
    ensures Evolves(g, g'')
  {
    forall c | c in g.cases
      ensures CaseEvolves(g, g'', c)
    {
      assert CaseEvolves(g, g', c) && CaseEvolves(g', g'', c);
    }
  }

  // ---- Rebuilding part of a view ----

  /**
   Rebuilding only the keys whose support changed leaves the whole view equal to
   a full recomputation.
   */
  lemma PartialRebuildIsExact(before: Layer, keys: set<Key>, after: Layer)
    requires ViewExact(before)
    requires Rebuilt(after.scopes, before.published, keys, after.published)
    requires forall k: Key | k !in keys :: Support(before.scopes, k) == Support(after.scopes, k)
    ensures ViewExact(after)
  {
    forall k: Key
      ensures RowExact(after.scopes, after.published, k)
    {
      assert RowExact(before.scopes, before.published, k);
    }
  }
}
