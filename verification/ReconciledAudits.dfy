/**
 What the answer of a batched audit says, told by the answers it is made from: which
 cards a batch holds, which Articles a story of the final answer claims, and when the
 answer is inconclusive.
 */
module ReconciledAudits {
  import opened Collections
  import opened Wrappers
  import opened AuditOutput
  import opened Evidence
  import opened CoherenceBatches

  // ---- Batches ----

  function Joined(batches: seq<seq<Article>>): seq<Article> {
    if batches == [] then [] else batches[0] + Joined(batches[1..])
  }

  /** The batches are the cards in their order, cut after every `size` of them. */
  lemma {:induction false} BatchesCutInOrder(cards: seq<Article>, size: nat)
    requires size >= 1
    ensures var batches := Batches(cards, size);
            && Joined(batches) == cards
            && (forall i | 0 <= i < |batches| :: 1 <= |batches[i]| <= size)
            && (forall i | 0 <= i < |batches| - 1 :: |batches[i]| == size)
    decreases |cards|
  {
    if |cards| > size {
      var rest := Batches(cards[size..], size);
      BatchesCutInOrder(cards[size..], size);
      assert Batches(cards, size)[1..] == rest;
      assert cards == cards[..size] + cards[size..];
    } else if cards != [] {
      assert Batches(cards, size) == [cards] && [cards][1..] == [];
    }
  }

  /** References as the prompt shows them: batches, stories and detached Articles are numbered from one. */
  lemma RefsAreNumbered()
    ensures RefOf(StoryPlace(0, 1)) == "group_1_2"
    ensures RefOf(DetachedPlace(1, 10)) == "group_2_detached_11"
  {
    assert Decimal(1) == "1" && Decimal(2) == "2";
    assert Decimal(11) == Decimal(1) + "1" == "11";
  }

  // ---- Stories ----

  /** An expanded story keeps its reference and claims the Articles of the groups it named, and of no other. */
  lemma ExpandKeepsStories(o: Output<string>, groups: map<string, seq<Article>>, a: Article)
    requires Refers(o, groups)
    ensures var e := Expand(o, groups);
            && e.outcome == o.outcome && |e.stories| == |o.stories|
            && (forall j | 0 <= j < |o.stories| ::
                  && e.stories[j].ref == o.stories[j].ref
                  && (a in e.stories[j].articles <==> exists r :: r in o.stories[j].articles && a in groups[r]))
            && (a in e.detached <==> exists r :: r in o.detached && a in groups[r])
  {
    var e := Expand(o, groups);
    forall j | 0 <= j < |o.stories|
      ensures a in e.stories[j].articles <==> exists r :: r in o.stories[j].articles && a in groups[r]
    {
      assert o.stories[j] in o.stories;
      GatheredFrom(o.stories[j].articles, groups, a);
      assert a in e.stories[j].articles <==> a in Elements(e.stories[j].articles);
    }
    GatheredFrom(o.detached, groups, a);
  }

  lemma GatheredFrom(refs: seq<string>, groups: map<string, seq<Article>>, a: Article)
    requires forall r | r in refs :: r in groups
    ensures a in Elements(Gather(refs, groups)) <==> exists r :: r in refs && a in groups[r]
    ensures a in Gather(refs, groups) <==> exists r :: r in refs && a in groups[r]
  {
    GatherHoldsGroups(refs, groups);
    if r :| r in refs && a in groups[r] {
      assert r in Elements(refs);
    }
  }

  /** A story or a detached Article of a batch that holds the Article is among the groups that `refs` names. */
  ghost predicate Names(settled: seq<Output<Article>>, refs: seq<string>, a: Article) {
    exists g: Group :: Describes(settled, g) && RefOf(g.place) in refs && a in g.articles
  }

  lemma ListedIsAGroup(settled: seq<Output<Article>>, x: string) returns (g: Group)
    requires x in GroupMap(AllGroups(settled))
    ensures Describes(settled, g) && RefOf(g.place) == x
  {
    BatchRefsDecide(settled);
    GroupMapLooksUp(AllGroups(settled));
    g :| g in AllGroups(settled) && RefOf(g.place) == x;
    GroupsDescribe(settled, g);
  }

  lemma NamedGroups(settled: seq<Output<Article>>, refs: seq<string>, a: Article)
    requires forall r | r in refs :: r in GroupMap(AllGroups(settled))
    ensures Names(settled, refs, a) <==> exists r :: r in refs && a in GroupMap(AllGroups(settled))[r]
  {
    var groups := GroupMap(AllGroups(settled));
    if g: Group :| Describes(settled, g) && RefOf(g.place) in refs && a in g.articles {
      GroupIsListed(settled, g);
    }
    if r :| r in refs && a in groups[r] {
      var g := ListedIsAGroup(settled, r);
      GroupIsListed(settled, g);
    }
  }

  /** What the reconciliation of several batches settled as. */
  function Reconciled(settled: seq<Output<Article>>, final: Answers<string>): Output<string>
    requires ValidAnswers(final)
  {
    Settled(final.first, final.retry, GroupMap(AllGroups(settled)).Keys)
  }

  /**
   In the answer of several decisive batches an Article is in a story exactly when the
   same story of the reconciliation names a group that holds it, and detached exactly
   when a detached group holds it.
   */
  lemma AuditFollowsReconciliation(settled: seq<Output<Article>>, final: Answers<string>, a: Article)
    requires ValidAnswers(final) && |settled| != 1 && AllDecisive(settled)
    requires Audited(settled, final).Ok? && Audited(settled, final).value.outcome != Inconclusive
    ensures var e, o := Audited(settled, final).value, Reconciled(settled, final);
            && e.outcome == o.outcome && |e.stories| == |o.stories|
            && (forall j | 0 <= j < |o.stories| ::
                  && e.stories[j].ref == o.stories[j].ref
                  && (a in e.stories[j].articles <==> Names(settled, o.stories[j].articles, a)))
            && (a in e.detached <==> Names(settled, o.detached, a))
  {
    var groups, o := GroupMap(AllGroups(settled)), Reconciled(settled, final);
    CoveringRefers(o, groups);
    ExpandKeepsStories(o, groups, a);
    forall j | 0 <= j < |o.stories|
      ensures Names(settled, o.stories[j].articles, a) <==> exists r :: r in o.stories[j].articles && a in groups[r]
    {
      assert o.stories[j] in o.stories;
      NamedGroups(settled, o.stories[j].articles, a);
    }
    NamedGroups(settled, o.detached, a);
  }

  /**
   A single batch is answered as it settled; several are inconclusive exactly if a batch, or
   the reconciliation, is.
   */
  lemma InconclusiveOnlyIfAnsweredSo(settled: seq<Output<Article>>, final: Answers<string>)
    requires ValidAnswers(final)
    ensures |settled| == 1 ==> Audited(settled, final) == Ok(settled[0])
    ensures |settled| != 1 ==>
              (Audited(settled, final).Ok? && Audited(settled, final).value.outcome == Inconclusive
               <==> || (exists i :: 0 <= i < |settled| && settled[i].outcome == Inconclusive)
                    || Reconciled(settled, final).outcome == Inconclusive)
  {
    if |settled| != 1 {
      assert forall i | 0 <= i < |settled| :: Decisive(settled, i) <==> settled[i].outcome != Inconclusive;
      if AllDecisive(settled) && Reconciled(settled, final).outcome != Inconclusive {
        CoveringRefers(Reconciled(settled, final), GroupMap(AllGroups(settled)));
      }
    }
  }

  lemma DecisiveAnswersClaim<A>(o: Output<A>)
    requires ValidOutcome(o)
    ensures o.outcome != Inconclusive ==> Assigned(o) != {}
  {
    if o.outcome != Inconclusive {
      var j :| 0 <= j < |o.stories| && o.stories[j].ref == ORIGINAL;
      var s := o.stories[j];
      assert s in o.stories && ValidStory(s);
      assert s.articles[0] in s.articles && s.articles[0] in Assigned(o);
    }
  }

  /** No cards, no decision: without any batch the reconciliation has no group that a story could claim. */
  lemma EmptyAuditIsInconclusive(final: Answers<string>)
    requires ValidAnswers(final)
    ensures Reconciled([], final).outcome == Inconclusive
  {
    DecisiveAnswersClaim(Reconciled([], final));
  }
}
