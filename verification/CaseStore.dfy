/**
 The transactions as the jobs run them: row by row, on the tables of one
 database. Each is proved to commit what its specification in `Transactions`
 says; a raised error rolls back.
 */
module CaseStore {
  import opened Collections
  import opened Wrappers
  import opened AuditOutput
  import opened Evidence
  import opened Transactions

  /** `ORDER BY published_at, created_at LIMIT 1` over a non-empty result. */
  method Earliest(rows: set<Article>) returns (first: Article)
    requires rows != {}
    ensures IsFirst(first, rows)
  {
    first :| first in rows;
    var todo := rows - {first};
    while todo != {}
      invariant todo <= rows
      invariant IsFirst(first, rows - todo)
    {
      var next :| next in todo;
      ghost var done := rows - todo;
      if !NotAfter(first, next) {
        first := next;
      }
      todo := todo - {next};
      assert rows - todo == done + {next};
    }
    assert rows - todo == rows;
  }

  /** `merged_assignments`: the Cases that some decision of the group assigns. */
  method MergedAssignments(ds: seq<Decision>) returns (cases: set<CaseId>)
    ensures forall c :: c in cases <==> exists d :: d in ds && c in d.cases
  {
    cases := {};
    for i := 0 to |ds|
      invariant forall c :: c in cases <==> exists d :: d in ds[..i] && c in d.cases
    {
      assert ds[..i + 1] == ds[..i] + [ds[i]];
      cases := cases + Elements(ds[i].cases);
    }
    assert ds[..|ds|] == ds;
  }

  lemma CreatedOneMore(cases: map<CaseId, CaseRow>, newIds: seq<CaseId>, i: nat, now: int)
    requires i < |newIds|
    ensures Elements(newIds[..i + 1]) == Elements(newIds[..i]) + {newIds[i]}
    ensures Created(cases, Elements(newIds[..i + 1]), now)
        == Created(cases, Elements(newIds[..i]), now)[newIds[i] := NewCase(1, now)]
  {
    assert newIds[..i + 1] == newIds[..i] + [newIds[i]];
  }

  /** A Case already linked, or bumped before, is left alone; another takes the link, the count and the revision. */
  lemma BumpedOneMore(cases: map<CaseId, CaseRow>, links: set<Link>, a: Article,
      kept: seq<CaseId>, i: nat)
    requires i < |kept| && kept[i] in cases
    ensures var c, before, done := kept[i], Elements(kept[..i]), Elements(kept[..i + 1]);
            && done == before + {c}
            && CaseLinks(a, done) == CaseLinks(a, before) + {Link(c, a)}
            && Bumped(cases, links, a, done)
            == if Link(c, a) in links + CaseLinks(a, before) then Bumped(cases, links, a, before)
               else var row := Bumped(cases, links, a, before)[c];
                    Bumped(cases, links, a, before)
                      [c := row.(articleCount := row.articleCount + 1, revision := row.revision + 1)]
  {
    assert kept[..i + 1] == kept[..i] + [kept[i]];
    assert Link(kept[i], a) in CaseLinks(a, Elements(kept[..i])) <==> kept[i] in Elements(kept[..i]);
  }

  lemma AssignmentsAdd(mentions: set<Mention>, xs: set<Link>, ys: set<Link>)
    ensures Assignments(mentions, xs + ys) == Assignments(mentions, xs) + Assignments(mentions, ys)
    ensures KeysOf(Assignments(mentions, xs + ys))
        == KeysOf(Assignments(mentions, xs)) + KeysOf(Assignments(mentions, ys))
  {
  }

  function LinksTo(c: CaseId, articles: set<Article>): set<Link> {
    set a | a in articles :: Link(c, a)
  }

  /** The three tables of one identity layer. */
  class IdentityTables {
    var mentions: set<Mention>
    var scopes: set<Scope>
    var published: map<Key, PublicRow>

    constructor ()
      ensures View() == Layer({}, {}, map[])
    {
      mentions, scopes, published := {}, {}, map[];
    }

    function View(): Layer
      reads this
    {
      Layer(mentions, scopes, published)
    }

    /** The row loop of `rebuild_case_entities` and `rebuild_case_events`. */
    method Rebuild(keys: set<Key>)
      modifies this`published
      ensures Rebuilt(scopes, old(published), keys, published)
    {
      var todo := keys;
      while todo != {}
        invariant todo <= keys
        invariant Rebuilt(scopes, old(published), keys - todo, published)
      {
        var k :| k in todo;
        ghost var before := published;
        var rows := Support(scopes, k);
        if rows == {} {
          published := published - {k};
        } else {
          var first := Earliest(rows);
          published := published[k := PublicRow(first, |rows|)];
        }
        forall k' | k' in keys - todo && k' != k
          ensures RowExact(scopes, published, k')
        {
          assert RowExact(scopes, before, k');
        }
        todo := todo - {k};
      }
      assert keys - todo == keys;
    }

    /** `_persist_entities` and `_persist_events`; returns old and new pairs. */
    method Persist(a: Article, ds: seq<Decision>) returns (affected: set<Key>)
      modifies this`mentions, this`scopes
      ensures affected == AffectedKeys(old(View()), a, ds)
      ensures mentions == (set m | m in old(mentions) && m.article != a) + (set i | i in Accepted(ds) :: Mention(a, i))
      ensures scopes == (old(scopes) - ScopesOf(old(scopes), a)) + DecidedScopes(a, ds)
    {
      var oldPairs := KeysOf(ScopesOf(scopes, a));
      scopes := scopes - ScopesOf(scopes, a);
      mentions := set m | m in mentions && m.article != a;
      var grouped := GroupDecisions(ds);
      ghost var keptScopes, keptMentions := scopes, mentions;
      var newScopes: set<Scope> := {};
      var todo := grouped.Keys;
      while todo != {}
        invariant todo <= grouped.Keys
        invariant mentions == keptMentions + (set i | i in grouped.Keys - todo :: Mention(a, i))
        invariant scopes == keptScopes + newScopes
        invariant forall t :: t in newScopes <==> t in DecidedScopes(a, ds) && t.item !in todo
      {
        var item :| item in todo;
        mentions := mentions + {Mention(a, item)};
        var cases := MergedAssignments(grouped[item]);
        var rows := set c | c in cases :: Scope(a, item, c);
        assert forall t :: t in rows <==> t in DecidedScopes(a, ds) && t.item == item;
        scopes := scopes + rows;
        newScopes := newScopes + rows;
        todo := todo - {item};
      }
      assert grouped.Keys - todo == Accepted(ds);
      assert newScopes == DecidedScopes(a, ds);
      affected := oldPairs + KeysOf(newScopes);
    }

    /** `_assign_article_entities` and `_assign_article_events`. */
    method AssignArticle(a: Article, c: CaseId) returns (keys: set<Key>)
      modifies this`scopes
      ensures scopes == old(scopes) + Assignments(mentions, {Link(c, a)})
      ensures keys == KeysOf(Assignments(mentions, {Link(c, a)}))
    {
      var rows := set m | m in mentions && m.article == a;
      var todo := rows;
      var added: set<Scope> := {};
      while todo != {}
        invariant todo <= rows
        invariant scopes == old(scopes) + added
        invariant added == Assignments(rows - todo, {Link(c, a)})
      {
        var m :| m in todo;
        scopes := scopes + {Scope(a, m.item, c)};
        added := added + {Scope(a, m.item, c)};
        todo := todo - {m};
      }
      assert rows - todo == rows;
      assert added == Assignments(mentions, {Link(c, a)});
      keys := KeysOf(added);
    }

    /** The same for every Article of a story or an absorbed Case. */
    method AssignArticles(articles: set<Article>, c: CaseId) returns (keys: set<Key>)
      modifies this`scopes
      ensures scopes == old(scopes) + Assignments(mentions, LinksTo(c, articles))
      ensures keys == KeysOf(Assignments(mentions, LinksTo(c, articles)))
    {
      keys := {};
      var todo := articles;
      ghost var added: set<Link> := {};
      while todo != {}
        invariant todo <= articles && added == LinksTo(c, articles - todo)
        invariant scopes == old(scopes) + Assignments(mentions, added)
        invariant keys == KeysOf(Assignments(mentions, added))
      {
        var a :| a in todo;
        var newKeys := AssignArticle(a, c);
        keys := keys + newKeys;
        AssignmentsAdd(mentions, added, {Link(c, a)});
        todo := todo - {a};
        added := added + {Link(c, a)};
      }
      assert articles - todo == articles;
    }

    method AssignStories(c: CaseId, stories: seq<Story<Article>>, newIds: seq<CaseId>) returns (keys: set<Key>)
      requires |stories| == |newIds|
      modifies this`scopes
      ensures scopes == old(scopes) + Assignments(mentions, StoryLinks(c, stories, newIds))
      ensures keys == KeysOf(Assignments(mentions, StoryLinks(c, stories, newIds)))
    {
      keys := {};
      ghost var added: set<Link> := {};
      for j := 0 to |stories|
        invariant added == FirstStoryLinks(c, stories, newIds, j)
        invariant scopes == old(scopes) + Assignments(mentions, added)
        invariant keys == KeysOf(Assignments(mentions, added))
      {
        var target, articles := Target(c, stories, newIds, j), Elements(stories[j].articles);
        var newKeys := AssignArticles(articles, target);
        keys := keys + newKeys;
        AssignmentsAdd(mentions, added, LinksTo(target, articles));
        added := added + LinksTo(target, articles);
      }
    }

    method ClearCase(c: CaseId)
      modifies this`scopes, this`published
      ensures View() == Cleared(old(View()), c)
    {
      scopes := set t | t in scopes && t.caseId != c;
      published := map k | k in published && k.caseId != c :: published[k];
    }
  }

  /** The decisions of each accepted identity; rejected ones are skipped. */
  method GroupDecisions(ds: seq<Decision>) returns (grouped: map<ItemId, seq<Decision>>)
    ensures grouped.Keys == Accepted(ds)
    ensures forall item, d | item in grouped :: d in grouped[item] <==> d in ds && !d.rejected && d.item == item
  {
    grouped := map[];
    for i := 0 to |ds|
      invariant grouped.Keys == Accepted(ds[..i])
      invariant forall item, d | item in grouped ::
                  d in grouped[item] <==> d in ds[..i] && !d.rejected && d.item == item
    {
      assert ds[..i + 1] == ds[..i] + [ds[i]];
      var d := ds[i];
      if !d.rejected {
        var group := if d.item in grouped then grouped[d.item] else [];
        grouped := grouped[d.item := group + [d]];
      }
    }
    assert ds[..|ds|] == ds;
  }

  /** How publishing an audit ends; nothing is committed when a lock is busy or the application raises. */
  datatype Publication = Busy | Skipped | Superseded | NoChange | Published | Failed

  /** The Case, or one of the pair, could not be looked at, or is not active. */
  predicate Unseen(p: Publication) {
    p == Busy || p == Skipped
  }

  /** The guard passed. */
  predicate Guarded(p: Publication) {
    p == NoChange || p == Published || p == Failed
  }

  /** Which of the three mutation locks the publisher gets. */
  datatype Locks = Locks(caseFree: bool, entityFree: bool, eventFree: bool)

  datatype InterestOutcome = Keep | Hide | Unsure

  datatype DuplicateOutcome = Merge | Distinct | Unclear

  /** A row of one of the three audit tables; no outcome stands for `superseded`. */
  datatype AuditRecord =
    | CoherenceRecord(caseId: CaseId, revision: nat, coherence: Option<Outcome>)
    | InterestRecord(caseId: CaseId, revision: nat, interest: Option<InterestOutcome>)
    | DuplicateRecord(first: CaseId, second: CaseId, firstRevision: nat, secondRevision: nat,
        duplicate: Option<DuplicateOutcome>)

  class CaseTables {
    var cases: map<CaseId, CaseRow>
    var links: set<Link>
    var records: seq<AuditRecord>
    var coherenceAudited: map<CaseId, nat>
    var interestAudited: map<CaseId, nat>
    const entities: IdentityTables
    const events: IdentityTables

    constructor ()
      ensures Valid() && fresh(entities) && fresh(events)
      ensures View() == Graph(map[], {}, Layer({}, {}, map[]), Layer({}, {}, map[]))
    {
      cases, links := map[], {};
      records, coherenceAudited, interestAudited := [], map[], map[];
      entities := new IdentityTables();
      events := new IdentityTables();
    }

    ghost predicate Valid() {
      entities != events
    }

    function View(): Graph
      reads this, entities, events
    {
      Graph(cases, links, entities.View(), events.View())
    }

    method Rollback(saved: Graph)
      requires Valid()
      modifies this`cases, this`links, entities, events
      ensures View() == saved
    {
      cases, links := saved.cases, saved.links;
      entities.mentions, entities.scopes := saved.entities.mentions, saved.entities.scopes;
      entities.published := saved.entities.published;
      events.mentions, events.scopes := saved.events.mentions, saved.events.scopes;
      events.published := saved.events.published;
    }

    /** `rebuild_case_events`: the rows, then the Event count of every Case named by a key. */
    method RebuildEvents(keys: set<Key>)
      requires Valid()
      modifies this`cases, events`published
      ensures Rebuilt(events.scopes, old(events.published), keys, events.published)
      ensures cases == Recounted(old(cases), events.published, CasesIn(keys))
    {
      events.Rebuild(keys);
      var todo := CasesIn(keys);
      while todo != {}
        modifies this`cases
        invariant todo <= CasesIn(keys)
        invariant cases == Recounted(old(cases), events.published, CasesIn(keys) - todo)
      {
        var c :| c in todo;
        if c in cases {
          cases := cases[c := cases[c].(eventCount := |EventKeys(events.published, c)|)];
        }
        todo := todo - {c};
      }
      assert CasesIn(keys) - todo == CasesIn(keys);
    }

    method RefreshCounts(c: CaseId)
      requires c in cases
      modifies this`cases
      ensures cases == old(cases)[c := Refreshed(old(cases)[c], c, links, events.published)]
    {
      cases := cases[c := cases[c].(articleCount := |LinkedTo(links, c)|)];
      cases := cases[c := cases[c].(eventCount := |EventKeys(events.published, c)|)];
    }

    /** The existing links of `_persist_resolution`; a link to a non-candidate raises. */
    method LinkExisting(a: Article, candidates: set<CaseId>, kept: seq<CaseId>) returns (ok: bool)
      requires forall c | c in candidates :: c in cases
      modifies this`cases, this`links
      ensures ok <==> forall c | c in kept :: c in candidates
      ensures links == old(links) + if ok then CaseLinks(a, Elements(kept)) else {}
      ensures cases == if ok then Bumped(old(cases), old(links), a, Elements(kept)) else old(cases)
    {
      var savedCases, savedLinks := cases, links;
      for i := 0 to |kept|
        modifies this`cases, this`links
        invariant forall c | c in kept[..i] :: c in candidates
        invariant cases == Bumped(savedCases, savedLinks, a, Elements(kept[..i]))
        invariant links == savedLinks + CaseLinks(a, Elements(kept[..i]))
      {
        var c := kept[i];
        if c !in candidates {
          cases, links := savedCases, savedLinks;
          return false;
        }
        BumpedOneMore(savedCases, savedLinks, a, kept, i);
        if Link(c, a) !in links {
          links := links + {Link(c, a)};
          cases := cases[c := cases[c].(articleCount := cases[c].articleCount + 1, revision := cases[c].revision + 1)];
        }
      }
      assert kept[..|kept|] == kept;
      ok := true;
    }

    /** The new Cases of `_persist_resolution`. */
    method CreateCases(a: Article, newIds: seq<CaseId>, now: int)
      modifies this`cases, this`links
      ensures cases == Created(old(cases), Elements(newIds), now)
      ensures links == old(links) + CaseLinks(a, Elements(newIds))
    {
      for i := 0 to |newIds|
        modifies this`cases, this`links
        invariant cases == Created(old(cases), Elements(newIds[..i]), now)
        invariant links == old(links) + CaseLinks(a, Elements(newIds[..i]))
      {
        CreatedOneMore(old(cases), newIds, i, now);
        cases := cases[newIds[i] := NewCase(1, now)];
        links := links + {Link(newIds[i], a)};
      }
      assert newIds[..|newIds|] == newIds;
    }

    /** `_persist_resolution`. */
    method PersistResolution(a: Article, candidates: set<CaseId>, kept: seq<CaseId>, newIds: seq<CaseId>,
        now: int) returns (ok: bool)
      requires FreshCases(View(), newIds)
      requires forall c | c in candidates :: c in cases
      modifies this`cases, this`links
      ensures ok <==> forall c | c in kept :: c in candidates
      ensures View() == if ok then Resolved(old(View()), a, kept, newIds, now) else old(View())
    {
      ok := LinkExisting(a, candidates, kept);
      if ok {
        CreateCases(a, newIds, now);
        assert CaseLinks(a, Elements(kept) + Elements(newIds))
            == CaseLinks(a, Elements(kept)) + CaseLinks(a, Elements(newIds));
      }
    }

    method ResolveEntities(a: Article, ds: seq<Decision>)
      requires Valid()
      modifies entities
      ensures EntitiesResolved(old(View()), a, ds, View())
    {
      var affected := entities.Persist(a, ds);
      entities.Rebuild(affected);
    }

    method ResolveEvents(a: Article, ds: seq<Decision>)
      requires Valid()
      modifies this`cases, events
      ensures EventsResolved(old(View()), a, ds, View())
    {
      var affected := events.Persist(a, ds);
      RebuildEvents(affected);
    }

    /** Links Articles to a Case and scopes all their mentions to it. */
    method AttachArticles(c: CaseId, articles: set<Article>) returns (entityKeys: set<Key>, eventKeys: set<Key>)
      requires Valid()
      modifies this`links, entities`scopes, events`scopes
      ensures links == old(links) + LinksTo(c, articles)
      ensures entities.scopes == old(entities.scopes) + Assignments(entities.mentions, LinksTo(c, articles))
      ensures events.scopes == old(events.scopes) + Assignments(events.mentions, LinksTo(c, articles))
      ensures entityKeys == KeysOf(Assignments(entities.mentions, LinksTo(c, articles)))
      ensures eventKeys == KeysOf(Assignments(events.mentions, LinksTo(c, articles)))
    {
      links := links + LinksTo(c, articles);
      entityKeys := entities.AssignArticles(articles, c);
      eventKeys := events.AssignArticles(articles, c);
    }

    /** Rebuilds the public rows that new scopes touched. */
    method Publish(ghost before: Graph, ghost added: set<Link>, entityKeys: set<Key>, eventKeys: set<Key>)
      requires Valid()
      requires before.entities == Layer(entities.mentions, before.entities.scopes, entities.published)
      requires before.events == Layer(events.mentions, before.events.scopes, events.published)
      requires entities.scopes == before.entities.scopes + Assignments(entities.mentions, added)
      requires events.scopes == before.events.scopes + Assignments(events.mentions, added)
      requires entityKeys == KeysOf(Assignments(entities.mentions, added))
      requires eventKeys == KeysOf(Assignments(events.mentions, added))
      modifies this`cases, entities`published, events`published
      ensures Attached(before.entities, added, entities.View())
      ensures Attached(before.events, added, events.View())
      ensures cases == Recounted(old(cases), events.published, CasesIn(eventKeys))
    {
      entities.Rebuild(entityKeys);
      RebuildEvents(eventKeys);
    }

    /** `_merge_cases`. */
    method MergeCases(survivor: CaseId, absorbed: CaseId)
      requires Valid() && survivor in cases && absorbed in cases && survivor != absorbed
      modifies this`cases, this`links, entities, events
      ensures MergeApplied(old(View()), survivor, absorbed, View())
    {
      ghost var before, added := View(), MergeLinks(links, survivor, absorbed);
      var articles := LinkedTo(links, absorbed);
      assert LinksTo(survivor, articles) == added;
      var entityKeys, eventKeys := AttachArticles(survivor, articles);
      Publish(before, added, entityKeys, eventKeys);
      MergeCaseRows(survivor, absorbed, eventKeys, before);
    }

    method MergeCaseRows(survivor: CaseId, absorbed: CaseId, ghost eventKeys: set<Key>, ghost before: Graph)
      requires survivor in before.cases && absorbed in before.cases && survivor != absorbed
      requires cases == Recounted(before.cases, events.published, CasesIn(eventKeys))
      requires CasesIn(eventKeys) <= {survivor}
      modifies this`cases
      ensures cases == MergedCases(before, survivor, absorbed, links, events.published)
    {
      RefreshCounts(survivor);
      cases := cases[survivor := cases[survivor].(revision := cases[survivor].revision + 1)];
      cases := cases[absorbed := cases[absorbed].(status := Merged, mergedInto := Some(survivor))];
    }

    /** The link inserts of `_apply_decisive_audit`; an Article outside the old set raises. */
    method LinkStories(c: CaseId, stories: seq<Story<Article>>, newIds: seq<CaseId>,
        allowed: set<Article>) returns (ok: bool)
      requires |stories| == |newIds|
      modifies this`links
      ensures ok <==> forall s | s in stories :: Elements(s.articles) <= allowed
      ensures ok ==> links == old(links) + StoryLinks(c, stories, newIds)
    {
      for j := 0 to |stories|
        invariant forall i | 0 <= i < j :: Elements(stories[i].articles) <= allowed
        invariant links == old(links) + FirstStoryLinks(c, stories, newIds, j)
      {
        var articles := Elements(stories[j].articles);
        if !(articles <= allowed) {
          return false;
        }
        links := links + LinksTo(Target(c, stories, newIds, j), articles);
      }
      ok := true;
    }

    /** A fresh Case for every story but the original. */
    method InsertStoryCases(c: CaseId, stories: seq<Story<Article>>, newIds: seq<CaseId>, now: int)
      requires |stories| == |newIds| && c in cases
      requires forall i | 0 <= i < |newIds| :: newIds[i] !in cases
      modifies this`cases
      ensures cases == WithCases(old(cases), Targets(c, stories, newIds), now)
    {
      for j := 0 to |stories|
        invariant cases == WithCases(old(cases), FirstTargets(c, stories, newIds, j), now)
      {
        var target := Target(c, stories, newIds, j);
        assert FirstTargets(c, stories, newIds, j + 1) == FirstTargets(c, stories, newIds, j) + {target};
        if stories[j].ref != ORIGINAL {
          cases := cases[target := NewCase(0, now)];
        }
      }
    }

    method RefreshAll(which: set<CaseId>)
      requires which <= cases.Keys
      modifies this`cases
      ensures cases == RefreshedAll(old(cases), which, links, events.published)
    {
      var todo := which;
      while todo != {}
        modifies this`cases
        invariant todo <= which
        invariant cases == RefreshedAll(old(cases), which - todo, links, events.published)
      {
        var c :| c in todo;
        RefreshCounts(c);
        todo := todo - {c};
      }
      assert which - todo == which;
    }

    /** The first half of `_apply_decisive_audit`: the new Cases, and the old rows of Case `c` deleted. */
    method PrepareSplit(c: CaseId, stories: seq<Story<Article>>, newIds: seq<CaseId>, now: int)
      requires Valid() && |stories| == |newIds| && c in cases && FreshCases(View(), newIds)
      modifies this`cases, this`links, entities, events
      ensures View() == Graph(WithCases(old(cases), Targets(c, stories, newIds), now), Without(old(links), c),
                              Cleared(old(entities.View()), c), Cleared(old(events.View()), c))
    {
      forall i | 0 <= i < |newIds|
        ensures newIds[i] !in cases
      {
        FreshIdIsUnknown(View(), newIds, i);
      }
      InsertStoryCases(c, stories, newIds, now);
      links := Without(links, c);
      entities.ClearCase(c);
      events.ClearCase(c);
    }

    /** The mentions of every story's Articles are scoped to its Case, and the public rows rebuilt. */
    method ScopeStories(c: CaseId, stories: seq<Story<Article>>, newIds: seq<CaseId>, ghost cleared: Graph)
      returns (eventKeys: set<Key>)
      requires Valid() && |stories| == |newIds| && entities.View() == cleared.entities
          && events.View() == cleared.events
      modifies this`cases, entities`scopes, entities`published, events`scopes, events`published
      ensures Attached(cleared.entities, StoryLinks(c, stories, newIds), entities.View())
      ensures Attached(cleared.events, StoryLinks(c, stories, newIds), events.View())
      ensures eventKeys == KeysOf(Assignments(events.mentions, StoryLinks(c, stories, newIds)))
      ensures cases == Recounted(old(cases), events.published, CasesIn(eventKeys))
    {
      var entityKeys := entities.AssignStories(c, stories, newIds);
      eventKeys := events.AssignStories(c, stories, newIds);
      Publish(cleared, StoryLinks(c, stories, newIds), entityKeys, eventKeys);
    }

    /** `_apply_decisive_audit`. */
    method ApplyDecisiveAudit(c: CaseId, revision: nat, o: Output<Article>, newIds: seq<CaseId>, now: int)
      returns (ok: bool)
      requires Valid() && c in cases && o.outcome != Inconclusive && ValidOutcome(o)
      requires |o.stories| == |newIds| && FreshCases(View(), newIds)
      modifies this`cases, this`links, entities, events
      ensures ok <==> Assigned(o) <= LinkedTo(old(links), c)
      ensures if ok then SplitApplied(old(View()), c, revision, o, newIds, now, View()) else View() == old(View())
    {
      var saved, allowed := View(), LinkedTo(links, c);
      PrepareSplit(c, o.stories, newIds, now);
      ghost var cleared := View();
      ok := LinkStories(c, o.stories, newIds, allowed);
      if !ok {
        Rollback(saved);
        return;
      }
      var targets := Targets(c, o.stories, newIds);
      OriginalIsATarget(c, o, newIds);
      var eventKeys := ScopeStories(c, o.stories, newIds, cleared);
      RecountThenRefresh(cleared.cases, eventKeys, targets, links, events.published);
      RefreshAll(targets);
      cases := cases[c := cases[c].(revision := revision + if EvidenceChanged(o) then 1 else 0)];
    }

    predicate IsLive(c: CaseId)
      reads this
    {
      c in cases && cases[c].status == Active
    }

    predicate Guard(c: CaseId, revision: nat)
      reads this
    {
      IsLive(c) && cases[c].revision == revision
    }

    /** The publishing half of the coherence audit job. */
    method PublishCoherence(locks: Locks, c: CaseId, revision: nat, o: Output<Article>, newIds: seq<CaseId>, now: int)
      returns (p: Publication)
      requires Valid() && ValidOutcome(o) && |o.stories| == |newIds| && FreshCases(View(), newIds)
      modifies this, entities, events
      ensures p == Busy <==> locks != Locks(true, true, true)
      ensures p == Skipped <==> locks == Locks(true, true, true) && !old(IsLive(c))
      ensures Guarded(p) <==> locks == Locks(true, true, true) && old(Guard(c, revision))
      ensures (p == Published || p == Failed) ==> (p == Published <==> Assigned(o) <= LinkedTo(old(links), c))
      ensures p == NoChange ==> o.outcome == Inconclusive
      ensures p == Published ==> o.outcome != Inconclusive
      ensures p == Published ==> SplitApplied(old(View()), c, revision, o, newIds, now, View())
      ensures p != Published ==> View() == old(View())
      ensures records == old(records) + (
                if p == Superseded then [CoherenceRecord(c, revision, None)]
                else if p == NoChange || p == Published then [CoherenceRecord(c, revision, Some(o.outcome))]
                else [])
      ensures coherenceAudited == (
                if p == NoChange then old(coherenceAudited)[c := revision]
                else if p == Published then
                  StoriesAudited(old(coherenceAudited), c, cases, Targets(c, o.stories, newIds))
                else old(coherenceAudited))
      ensures interestAudited == old(interestAudited)
    {
      if !locks.caseFree {
        return Busy;
      }
      if !locks.entityFree {
        return Busy;
      }
      if !locks.eventFree {
        return Busy;
      }
      if !IsLive(c) {
        return Skipped;
      }
      if cases[c].revision != revision {
        records := records + [CoherenceRecord(c, revision, None)];
        return Superseded;
      }
      p := CommitCoherence(c, revision, o, newIds, now);
    }

    /** What publishing does once the guard has passed. */
    method CommitCoherence(c: CaseId, revision: nat, o: Output<Article>, newIds: seq<CaseId>, now: int)
      returns (p: Publication)
      requires Valid() && ValidOutcome(o) && |o.stories| == |newIds| && FreshCases(View(), newIds) && Guard(c, revision)
      modifies this`cases, this`links, this`records, this`coherenceAudited, entities, events
      ensures Guarded(p) && (p == NoChange <==> o.outcome == Inconclusive)
      ensures p != NoChange ==> (p == Published <==> Assigned(o) <= LinkedTo(old(links), c))
      ensures if p == Published then SplitApplied(old(View()), c, revision, o, newIds, now, View())
          else View() == old(View())
      ensures records == old(records) + if p == Failed then [] else [CoherenceRecord(c, revision, Some(o.outcome))]
      ensures coherenceAudited == (
                if p == NoChange then old(coherenceAudited)[c := revision]
                else if p == Published then
                  StoriesAudited(old(coherenceAudited), c, cases, Targets(c, o.stories, newIds))
                else old(coherenceAudited))
    {
      if o.outcome == Inconclusive {
        coherenceAudited := coherenceAudited[c := revision];
        records := records + [CoherenceRecord(c, revision, Some(o.outcome))];
        return NoChange;
      }
      var ok := ApplyDecisiveAudit(c, revision, o, newIds, now);
      if !ok {
        return Failed;
      }
      coherenceAudited := StoriesAudited(coherenceAudited, c, cases, Targets(c, o.stories, newIds));
      records := records + [CoherenceRecord(c, revision, Some(o.outcome))];
      p := Published;
    }

    /** The publishing half of the public-interest audit job. */
    method PublishInterest(locks: Locks, c: CaseId, revision: nat, outcome: InterestOutcome) returns (p: Publication)
      modifies this`cases, this`records, this`interestAudited
      ensures p == Busy <==> !locks.caseFree
      ensures p == Skipped <==> locks.caseFree && !old(IsLive(c))
      ensures p == Published <==> locks.caseFree && old(Guard(c, revision)) && outcome == Hide
      ensures p == NoChange <==> locks.caseFree && old(Guard(c, revision)) && outcome != Hide
      ensures p != Failed
      ensures View() == if p == Published then HiddenCase(old(View()), c) else old(View())
      ensures records == old(records) + (
                if Unseen(p) then []
                else [InterestRecord(c, revision, if p == Superseded then None else Some(outcome))])
      ensures interestAudited == if Unseen(p) then old(interestAudited) else old(interestAudited)[c := revision]
    {
      if !locks.caseFree {
        return Busy;
      }
      if !IsLive(c) {
        return Skipped;
      }
      var recorded := Some(outcome);
      p := NoChange;
      if cases[c].revision != revision {
        recorded, p := None, Superseded;
      } else if outcome == Hide {
        cases := cases[c := cases[c].(status := Hidden)];
        p := Published;
      }
      interestAudited := interestAudited[c := revision];
      records := records + [InterestRecord(c, revision, recorded)];
    }

    /** The publishing half of the duplicate audit job. */
    method PublishPair(locks: Locks, a: CaseId, b: CaseId, revisionA: nat, revisionB: nat, outcome: DuplicateOutcome)
      returns (p: Publication)
      requires Valid() && a != b
      modifies this`cases, this`links, this`records, entities, events
      ensures p == Busy <==> locks != Locks(true, true, true)
      ensures p == Skipped <==> locks == Locks(true, true, true) && !(old(IsLive(a)) && old(IsLive(b)))
      ensures (p == Published || p == NoChange) <==>
                locks == Locks(true, true, true) && old(Guard(a, revisionA)) && old(Guard(b, revisionB))
      ensures (p == Published || p == NoChange) ==> (p == Published <==> outcome == Merge)
      ensures p != Failed
      ensures p == Published ==>
                MergeApplied(old(View()), Survivor(old(cases), a, b), Absorbed(old(cases), a, b), View())
      ensures p != Published ==> View() == old(View())
      ensures records == old(records) + (
                if Unseen(p) then []
                else [PairRecord(a, b, revisionA, revisionB, if p == Superseded then None else Some(outcome))])
    {
      if !locks.caseFree {
        return Busy;
      }
      if !locks.entityFree {
        return Busy;
      }
      if !locks.eventFree {
        return Busy;
      }
      if !IsLive(a) || !IsLive(b) {
        return Skipped;
      }
      var recorded := Some(outcome);
      p := NoChange;
      if (cases[a].revision, cases[b].revision) != (revisionA, revisionB) {
        recorded, p := None, Superseded;
      } else if outcome == Merge {
        MergeCases(Survivor(cases, a, b), Absorbed(cases, a, b));
        p := Published;
      }
      records := records + [PairRecord(a, b, revisionA, revisionB, recorded)];
    }
  }

  /**
   The audited revisions after a decisive audit: the original's is its new one, those of the
   new Cases are their first.
   */
  function StoriesAudited(audited: map<CaseId, nat>, c: CaseId, cases: map<CaseId, CaseRow>, targets: set<CaseId>)
    : map<CaseId, nat>
  {
    map x | x in audited.Keys + targets ::
      if x == c && c in cases then cases[c].revision else if x in targets then 1 else audited[x]
  }

  /** So every Case that a story went to counts as audited at the revision its row has now; other Cases as before. */
  lemma StoriesCountAsAudited(g: Graph, c: CaseId, revision: nat, o: Output<Article>, newIds: seq<CaseId>, now: int,
      g': Graph, audited: map<CaseId, nat>, x: CaseId)
    requires c in g.cases && |o.stories| == |newIds| && FreshCases(g, newIds)
    requires o.outcome != Inconclusive && ValidOutcome(o) && SplitApplied(g, c, revision, o, newIds, now, g')
    ensures var targets := Targets(c, o.stories, newIds);
            var audited' := StoriesAudited(audited, c, g'.cases, targets);
            && audited'.Keys == audited.Keys + targets
            && (x in targets ==> x in g'.cases && audited'[x] == g'.cases[x].revision)
            && (x !in targets && x in audited ==> audited'[x] == audited[x])
  {
    OriginalIsATarget(c, o, newIds);
    TargetsAreNew(c, o.stories, newIds);
  }

  /** The record of a pair: the smaller id first, each id with its own revision. */
  function PairRecord(a: CaseId, b: CaseId, revisionA: nat, revisionB: nat, outcome: Option<DuplicateOutcome>)
    : (r: AuditRecord)
    ensures r.DuplicateRecord? && r.first.uuid <= r.second.uuid && r.duplicate == outcome
    ensures {(r.first, r.firstRevision), (r.second, r.secondRevision)} == {(a, revisionA), (b, revisionB)}
  {
    if a.uuid <= b.uuid then DuplicateRecord(a, b, revisionA, revisionB, outcome)
    else DuplicateRecord(b, a, revisionB, revisionA, outcome)
  }

  lemma PairRecordIsSymmetric(a: CaseId, b: CaseId, revisionA: nat, revisionB: nat, outcome: Option<DuplicateOutcome>)
    requires a != b
    ensures PairRecord(a, b, revisionA, revisionB, outcome) == PairRecord(b, a, revisionB, revisionA, outcome)
  {
    assert a.uuid != b.uuid;
  }

  /** The sort key of `_merge_order`: more Articles first, then older, then the smaller id. */
  predicate SortsFirst(cases: map<CaseId, CaseRow>, a: CaseId, b: CaseId)
    requires a in cases && b in cases
  {
    || cases[a].articleCount > cases[b].articleCount
    || (cases[a].articleCount == cases[b].articleCount
        && (cases[a].created < cases[b].created || (cases[a].created == cases[b].created && a.uuid <= b.uuid)))
  }

  /** The survivor has no fewer Articles than the absorbed Case; of two equally large Cases the older survives. */
  function Survivor(cases: map<CaseId, CaseRow>, a: CaseId, b: CaseId): (survivor: CaseId)
    requires a in cases && b in cases
    ensures survivor in {a, b}
    ensures var other := if survivor == a then b else a;
            && cases[survivor].articleCount >= cases[other].articleCount
            && (cases[survivor].articleCount == cases[other].articleCount
                ==> cases[survivor].created <= cases[other].created)
  {
    if SortsFirst(cases, a, b) then a else b
  }

  function Absorbed(cases: map<CaseId, CaseRow>, a: CaseId, b: CaseId): CaseId
    requires a in cases && b in cases
  {
    if SortsFirst(cases, a, b) then b else a
  }

  /** A refresh overrides the recount that the row rebuild already made. */
  lemma RecountThenRefresh(cases: map<CaseId, CaseRow>, keys: set<Key>, targets: set<CaseId>, links: set<Link>,
      published: map<Key, PublicRow>)
    requires CasesIn(keys) <= targets
    ensures RefreshedAll(Recounted(cases, published, CasesIn(keys)), targets, links, published)
         == RefreshedAll(cases, targets, links, published)
  {
  }

  /** Two audits of the same pair, in either order, agree on which Case survives. */
  lemma MergeOrderIsSymmetric(cases: map<CaseId, CaseRow>, a: CaseId, b: CaseId)
    requires a in cases && b in cases && a != b
    ensures Survivor(cases, a, b) == Survivor(cases, b, a)
    ensures {Survivor(cases, a, b), Absorbed(cases, a, b)} == {a, b}
  {
    assert a.uuid != b.uuid;
  }
}
