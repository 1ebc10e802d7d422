/**
 A coherence audit too large for one prompt: batches of cards are audited one by
 one, their stories become groups, the groups are reconciled, and the groups of
 the final answer are expanded back to Articles.
 */
module CoherenceBatches {
  import opened Collections
  import opened Wrappers
  import opened AuditOutput
  import opened Evidence

  // ---- One model call with its coverage retry ----

  /** The first answer if it covers `ids`, else the retry, else the inconclusive fallback. */
  function Settled<A>(first: Output<A>, retry: Output<A>, ids: set<A>): (o: Output<A>)
    requires ValidOutcome(first) && ValidOutcome(retry)
    ensures ValidOutcome(o) && (o.outcome == Inconclusive || Covers(o, ids))
  {
    if ValidateCoverage(first, ids).None? then first
    else if ValidateCoverage(retry, ids).None? then retry
    else Output(Inconclusive, [], [])
  }

  /** A first answer that accounts for each card is kept; a retry that does is used; nothing else is believed. */
  lemma BestAnswerWins<A(!new)>(first: Output<A>, retry: Output<A>, ids: set<A>)
    requires ValidOutcome(first) && ValidOutcome(retry)
    ensures var o := Settled(first, retry, ids);
            && (first.outcome == Inconclusive || AccountsForEach(first, ids) ==> o == first)
            && (first.outcome != Inconclusive && !AccountsForEach(first, ids) ==>
                  if retry.outcome == Inconclusive || AccountsForEach(retry, ids) then o == retry
                  else o.outcome == Inconclusive)
  {
    CoveringAccountsForEach(first, ids);
    CoveringAccountsForEach(retry, ids);
  }

  // ---- Group references ----

  function Digit(d: nat): char
    requires d < 10
  {
    '0' + d as char
  }

  function Decimal(n: nat): string {
    if n < 10 then [Digit(n)] else Decimal(n / 10) + [Digit(n % 10)]
  }

  predicate IsNumeral(s: string) {
    s != [] && forall i | 0 <= i < |s| :: '0' <= s[i] <= '9'
  }

  lemma {:induction false} DecimalIsNumeral(n: nat)
    ensures IsNumeral(Decimal(n))
  {
    if n >= 10 {
      DecimalIsNumeral(n / 10);
    }
  }

  lemma {:induction false} DecimalInjective(m: nat, n: nat)
    requires Decimal(m) == Decimal(n)
    ensures m == n
  {
    if m < 10 || n < 10 {
      assert |Decimal(if m < 10 then m else n)| == 1;
      DecimalIsNumeral(m / 10);
      DecimalIsNumeral(n / 10);
    } else {
      var s, t := Decimal(m), Decimal(n);
      assert s[..|s| - 1] == Decimal(m / 10) && t[..|t| - 1] == Decimal(n / 10);
      assert s[|s| - 1] == t[|t| - 1];
      DecimalInjective(m / 10, n / 10);
    }
  }

  /** A numeral ends where the first underscore stands. */
  lemma NumeralEnds(d: string, x: string, d': string, x': string)
    requires IsNumeral(d) && IsNumeral(d')
    requires d + "_" + x == d' + "_" + x'
    ensures d == d' && x == x'
  {
    var s := d + "_" + x;
    assert s[|d|] == '_' && s[|d'|] == '_';
    assert forall i | 0 <= i < |d| :: s[i] == d[i];
    assert forall i | 0 <= i < |d'| :: s[i] == d'[i];
    assert |d| == |d'|;
    assert s[..|d|] == d && s[..|d'|] == d';
    assert s[|d| + 1..] == x && s[|d'| + 1..] == x';
  }

  datatype Place = StoryPlace(batch: nat, story: nat) | DetachedPlace(batch: nat, index: nat)

  function Suffix(p: Place): string {
    match p
    case StoryPlace(_, j) => Decimal(j + 1)
    case DetachedPlace(_, k) => "detached_" + Decimal(k + 1)
  }

  /** `group_1_2` for a story, `group_1_detached_2` for a detached Article. */
  function RefOf(p: Place): string {
    "group_" + (Decimal(p.batch + 1) + "_" + Suffix(p))
  }

  lemma SuffixesDiffer(p: Place, q: Place)
    requires Suffix(p) == Suffix(q)
    ensures p.StoryPlace? == q.StoryPlace?
    ensures p.StoryPlace? ==> p.story == q.story
    ensures p.DetachedPlace? ==> p.index == q.index
  {
    var m := if p.StoryPlace? then p.story + 1 else p.index + 1;
    var n := if q.StoryPlace? then q.story + 1 else q.index + 1;
    DecimalIsNumeral(m);
    DecimalIsNumeral(n);
    assert Suffix(p)[0] == if p.StoryPlace? then Decimal(m)[0] else 'd';
    assert Suffix(q)[0] == if q.StoryPlace? then Decimal(n)[0] else 'd';
    assert p.StoryPlace? == q.StoryPlace?;
    if p.DetachedPlace? {
      assert Suffix(p)[9..] == Decimal(m) && Suffix(q)[9..] == Decimal(n);
    }
    DecimalInjective(m, n);
  }

  /** No two groups share a reference. */
  lemma RefsInjective(p: Place, q: Place)
    requires RefOf(p) == RefOf(q)
    ensures p == q
  {
    var d, d' := Decimal(p.batch + 1), Decimal(q.batch + 1);
    assert RefOf(p)[6..] == d + "_" + Suffix(p) && RefOf(q)[6..] == d' + "_" + Suffix(q);
    DecimalIsNumeral(p.batch + 1);
    DecimalIsNumeral(q.batch + 1);
    NumeralEnds(d, Suffix(p), d', Suffix(q));
    DecimalInjective(p.batch + 1, q.batch + 1);
    SuffixesDiffer(p, q);
  }

  // ---- Groups ----

  /** A story of a batch, or one detached Article of it. */
  datatype Group = Group(place: Place, articles: seq<Article>)

  function StoryGroups(i: nat, o: Output<Article>): seq<Group> {
    seq(|o.stories|, j requires 0 <= j < |o.stories| => Group(StoryPlace(i, j), o.stories[j].articles))
  }

  function DetachedGroups(i: nat, o: Output<Article>): seq<Group> {
    seq(|o.detached|, k requires 0 <= k < |o.detached| => Group(DetachedPlace(i, k), [o.detached[k]]))
  }

  function BatchGroups(i: nat, o: Output<Article>): seq<Group> {
    StoryGroups(i, o) + DetachedGroups(i, o)
  }

  /** The groups of the first `n` batches. */
  function FirstGroups(outputs: seq<Output<Article>>, n: nat): seq<Group>
    requires n <= |outputs|
  {
    if n == 0 then [] else FirstGroups(outputs, n - 1) + BatchGroups(n - 1, outputs[n - 1])
  }

  function AllGroups(outputs: seq<Output<Article>>): seq<Group> {
    FirstGroups(outputs, |outputs|)
  }

  /** `group_articles`, filled in order. */
  function GroupMap(gs: seq<Group>): map<string, seq<Article>> {
    if gs == [] then map[]
    else
      var last := gs[|gs| - 1];
      GroupMap(gs[..|gs| - 1])[RefOf(last.place) := last.articles]
  }

  ghost predicate Describes(outputs: seq<Output<Article>>, g: Group) {
    g.place.batch < |outputs| &&
    var o := outputs[g.place.batch];
    match g.place
    case StoryPlace(_, j) => j < |o.stories| && g.articles == o.stories[j].articles
    case DetachedPlace(_, k) => k < |o.detached| && g.articles == [o.detached[k]]
  }

  lemma {:induction false} FirstGroupsDescribe(outputs: seq<Output<Article>>, n: nat, g: Group)
    requires n <= |outputs|
    ensures g in FirstGroups(outputs, n) <==> Describes(outputs, g) && g.place.batch < n
  {
    if n > 0 {
      FirstGroupsDescribe(outputs, n - 1, g);
      var o, gs := outputs[n - 1], BatchGroups(n - 1, outputs[n - 1]);
      if Describes(outputs, g) && g.place.batch == n - 1 {
        var at := if g.place.StoryPlace? then g.place.story else |o.stories| + g.place.index;
        assert gs[at] == g;
      }
      assert g in gs ==> Describes(outputs, g) && g.place.batch == n - 1;
    }
  }

  /** The groups are exactly the stories and detached Articles of the batches. */
  lemma GroupsDescribe(outputs: seq<Output<Article>>, g: Group)
    ensures g in AllGroups(outputs) <==> Describes(outputs, g)
  {
    FirstGroupsDescribe(outputs, |outputs|, g);
  }

  ghost predicate RefsDecide(gs: seq<Group>) {
    forall g, h | g in gs && h in gs && RefOf(g.place) == RefOf(h.place) :: g.articles == h.articles
  }

  lemma {:induction false} GroupMapLooksUp(gs: seq<Group>)
    requires RefsDecide(gs)
    ensures forall g | g in gs :: RefOf(g.place) in GroupMap(gs) && GroupMap(gs)[RefOf(g.place)] == g.articles
    ensures forall r | r in GroupMap(gs) :: exists g :: g in gs && RefOf(g.place) == r
  {
    if gs != [] {
      var init, last := gs[..|gs| - 1], gs[|gs| - 1];
      GroupMapLooksUp(init);
      assert gs == init + [last];
      forall r | r in GroupMap(gs)
        ensures exists g :: g in gs && RefOf(g.place) == r
      {
        if r == RefOf(last.place) {
          assert last in gs;
        } else {
          assert r in GroupMap(init);
          var g :| g in init && RefOf(g.place) == r;
          assert g in gs;
        }
      }
    }
  }

  lemma BatchRefsDecide(outputs: seq<Output<Article>>)
    ensures RefsDecide(AllGroups(outputs))
  {
    forall g, h | g in AllGroups(outputs) && h in AllGroups(outputs) && RefOf(g.place) == RefOf(h.place)
      ensures g.articles == h.articles
    {
      RefsInjective(g.place, h.place);
      GroupsDescribe(outputs, g);
      GroupsDescribe(outputs, h);
    }
  }

  // ---- Expanding group references ----

  function Gather(refs: seq<string>, groups: map<string, seq<Article>>): seq<Article>
    requires forall r | r in refs :: r in groups
  {
    if refs == [] then [] else groups[refs[0]] + Gather(refs[1..], groups)
  }

  /** `list(dict.fromkeys(s))`. */
  function Dedup<T(==)>(s: seq<T>): (d: seq<T>)
    ensures Distinct(d) && Elements(d) == Elements(s)
  {
    if s == [] then []
    else
      var init, last := Dedup(s[..|s| - 1]), s[|s| - 1];
      assert s == s[..|s| - 1] + [last];
      ElementsOfConcat(s[..|s| - 1], [last]);
      ElementsOfConcat(init, [last]);
      if last in init then init else init + [last]
  }

  function ExpandStory(story: Story<string>, groups: map<string, seq<Article>>): Story<Article>
    requires forall r | r in story.articles :: r in groups
  {
    Story(story.ref, Dedup(Gather(story.articles, groups)))
  }

  ghost predicate Refers(o: Output<string>, groups: map<string, seq<Article>>) {
    && (forall s, r | s in o.stories && r in s.articles :: r in groups)
    && (forall r | r in o.detached :: r in groups)
  }

  function Expand(o: Output<string>, groups: map<string, seq<Article>>): Output<Article>
    requires Refers(o, groups)
  {
    Output(o.outcome,
           seq(|o.stories|, j requires 0 <= j < |o.stories| => ExpandStory(o.stories[j], groups)),
           Gather(o.detached, groups))
  }

  function GroupedArticles(refs: set<string>, groups: map<string, seq<Article>>): set<Article>
    requires refs <= groups.Keys
  {
    set r, a | r in refs && a in groups[r] :: a
  }

  lemma {:induction false} GatherHoldsGroups(refs: seq<string>, groups: map<string, seq<Article>>)
    requires forall r | r in refs :: r in groups
    ensures Elements(Gather(refs, groups)) == GroupedArticles(Elements(refs), groups)
  {
    if refs != [] {
      var rest := refs[1..];
      GatherHoldsGroups(rest, groups);
      ElementsOfConcat(groups[refs[0]], Gather(rest, groups));
      ElementsOfConcat([refs[0]], rest);
      assert refs == [refs[0]] + rest;
      assert Elements(refs) == {refs[0]} + Elements(rest);
    }
  }

  lemma CoveringRefers(o: Output<string>, groups: map<string, seq<Article>>)
    requires Covers(o, groups.Keys)
    ensures Refers(o, groups)
  {
    forall s, r | s in o.stories && r in s.articles
      ensures r in groups
    {
      assert r in Assigned(o);
    }
    forall r | r in o.detached
      ensures r in groups
    {
      assert r in Elements(o.detached);
    }
  }

  lemma AssignedExpands(o: Output<string>, groups: map<string, seq<Article>>, a: Article)
    requires Refers(o, groups) && Assigned(o) <= groups.Keys && a in Assigned(Expand(o, groups))
    ensures a in GroupedArticles(Assigned(o), groups)
  {
    var e := Expand(o, groups);
    var s :| s in e.stories && a in s.articles;
    var j :| 0 <= j < |o.stories| && s == ExpandStory(o.stories[j], groups);
    GatherHoldsGroups(o.stories[j].articles, groups);
    assert a in Elements(s.articles);
    var r :| r in o.stories[j].articles && a in groups[r];
    assert r in Assigned(o);
  }

  lemma GroupedIsAssigned(o: Output<string>, groups: map<string, seq<Article>>, a: Article)
    requires Refers(o, groups) && Assigned(o) <= groups.Keys && a in GroupedArticles(Assigned(o), groups)
    ensures a in Assigned(Expand(o, groups))
  {
    var e := Expand(o, groups);
    var r :| r in Assigned(o) && a in groups[r];
    var s :| s in o.stories && r in s.articles;
    var j :| 0 <= j < |o.stories| && o.stories[j] == s;
    GatherHoldsGroups(s.articles, groups);
    assert a in Elements(Gather(s.articles, groups));
    assert a in Elements(e.stories[j].articles);
    assert e.stories[j] in e.stories;
  }

  /** Expansion commutes with assigning and with detaching. */
  lemma ExpandTranslates(o: Output<string>, groups: map<string, seq<Article>>)
    requires Refers(o, groups) && Covers(o, groups.Keys)
    ensures Assigned(Expand(o, groups)) == GroupedArticles(Assigned(o), groups)
    ensures Elements(Expand(o, groups).detached) == GroupedArticles(Elements(o.detached), groups)
  {
    GatherHoldsGroups(o.detached, groups);
    forall a | a in Assigned(Expand(o, groups)) ensures a in GroupedArticles(Assigned(o), groups) {
      AssignedExpands(o, groups, a);
    }
    forall a | a in GroupedArticles(Assigned(o), groups) ensures a in Assigned(Expand(o, groups)) {
      GroupedIsAssigned(o, groups, a);
    }
  }

  /** If the reconciliation covers the groups, the expanded answer mentions every grouped Article and no other. */
  lemma ExpandKeepsCoverage(o: Output<string>, groups: map<string, seq<Article>>)
    requires Covers(o, groups.Keys)
    ensures Refers(o, groups)
    ensures Assigned(Expand(o, groups)) + Elements(Expand(o, groups).detached) == GroupedArticles(groups.Keys, groups)
  {
    CoveringRefers(o, groups);
    ExpandTranslates(o, groups);
  }

  // ---- When the expanded answer is valid ----

  /** No detached group shares an Article with any other group. */
  predicate DetachedApart(detached: seq<string>, groups: map<string, seq<Article>>) {
    forall g, h | g in detached && g in groups && h in groups.Keys && g != h ::
        Elements(groups[g]) !! Elements(groups[h])
  }

  predicate Apart(refs: seq<string>, groups: map<string, seq<Article>>)
    requires forall r | r in refs :: r in groups
  {
    forall i, j | 0 <= i < j < |refs| :: Elements(groups[refs[i]]) !! Elements(groups[refs[j]])
  }

  lemma {:induction false} GatherDistinctIff(refs: seq<string>, groups: map<string, seq<Article>>)
    requires forall r | r in refs :: r in groups
    requires forall r | r in groups :: Distinct(groups[r])
    ensures Distinct(Gather(refs, groups)) <==> Apart(refs, groups)
  {
    if refs != [] {
      var rest := refs[1..];
      GatherDistinctIff(rest, groups);
      GatherHoldsGroups(rest, groups);
      DistinctConcat(groups[refs[0]], Gather(rest, groups));
      assert forall j | 0 <= j < |rest| :: rest[j] == refs[j + 1];
      assert Elements(groups[refs[0]]) !! Elements(Gather(rest, groups))
        <==> forall j | 0 <= j < |rest| :: Elements(groups[refs[0]]) !! Elements(groups[rest[j]]);
    }
  }

  /** The expansion passes `validate_outcome` exactly when no detached group overlaps another group. */
  lemma ExpandValidIff(o: Output<string>, groups: map<string, seq<Article>>)
    requires o.outcome != Inconclusive && ValidOutcome(o) && Covers(o, groups.Keys)
    requires forall r | r in groups :: groups[r] != [] && Distinct(groups[r])
    ensures Refers(o, groups)
    ensures ValidOutcome(Expand(o, groups)) <==> DetachedApart(o.detached, groups)
  {
    CoveringRefers(o, groups);
    ExpandTranslates(o, groups);
    GatherDistinctIff(o.detached, groups);
    StoriesStayValid(o, groups);
    DetachedApartSplits(o, groups);
  }

  lemma StoryStaysFilled(story: Story<string>, groups: map<string, seq<Article>>)
    requires story.articles != [] && forall r | r in story.articles :: r in groups && groups[r] != []
    ensures ExpandStory(story, groups).ref == story.ref
    ensures ExpandStory(story, groups).articles != [] && Distinct(ExpandStory(story, groups).articles)
  {
    var first := groups[story.articles[0]][0];
    assert first in Elements(Gather(story.articles, groups));
    assert first in Elements(ExpandStory(story, groups).articles);
  }

  lemma StoriesStayValid(o: Output<string>, groups: map<string, seq<Article>>)
    requires o.outcome != Inconclusive && ValidOutcome(o) && Refers(o, groups)
    requires forall r | r in groups :: groups[r] != []
    ensures var e := Expand(o, groups);
            ValidOutcome(e) <==> Distinct(e.detached) && Assigned(e) !! Elements(e.detached)
  {
    var e := Expand(o, groups);
    forall s | s in e.stories
      ensures ValidStory(s)
    {
      var j :| 0 <= j < |o.stories| && s == ExpandStory(o.stories[j], groups);
      assert o.stories[j] in o.stories;
      StoryStaysFilled(o.stories[j], groups);
    }
    var j :| 0 <= j < |o.stories| && o.stories[j].ref == ORIGINAL;
    assert e.stories[j].ref == ORIGINAL;
  }

  /** Being apart splits into: detached groups among themselves, and detached from assigned. */
  lemma DetachedApartSplits(o: Output<string>, groups: map<string, seq<Article>>)
    requires ValidOutcome(o) && o.outcome != Inconclusive && Covers(o, groups.Keys) && Refers(o, groups)
    ensures DetachedApart(o.detached, groups) <==>
              Apart(o.detached, groups)
                  && GroupedArticles(Assigned(o), groups) !! GroupedArticles(Elements(o.detached), groups)
  {
    var detached := o.detached;
    if DetachedApart(detached, groups) {
      forall r, q | r in Assigned(o) && q in Elements(detached)
        ensures Elements(groups[r]) !! Elements(groups[q])
      {
        assert r != q && q in detached;
      }
      forall a | a in GroupedArticles(Assigned(o), groups)
        ensures a !in GroupedArticles(Elements(detached), groups)
      {
        var r :| r in Assigned(o) && a in groups[r];
        assert a in Elements(groups[r]);
        assert forall q | q in Elements(detached) :: a !in Elements(groups[q]);
      }
    }
    if Apart(detached, groups) && GroupedArticles(Assigned(o), groups) !! GroupedArticles(Elements(detached), groups) {
      forall g, h | g in detached && g in groups && h in groups.Keys && g != h
        ensures Elements(groups[g]) !! Elements(groups[h])
      {
        assert Elements(groups[g]) <= GroupedArticles(Elements(detached), groups);
        if h in Assigned(o) {
          assert Elements(groups[h]) <= GroupedArticles(Assigned(o), groups);
        } else {
          assert h in Elements(detached);
          var i :| 0 <= i < |detached| && detached[i] == g;
          var k :| 0 <= k < |detached| && detached[k] == h;
        }
      }
    }
  }

  // ---- The whole audit ----

  /** What the model answers to one prompt, and to its coverage retry. */
  datatype Answers<A> = Answers(first: Output<A>, retry: Output<A>)

  datatype AuditError = InvalidAnswer

  /** `cards[index : index + size]` for every multiple of `size`. */
  function Batches(cards: seq<Article>, size: nat): seq<seq<Article>>
    requires size >= 1
  {
    if cards == [] then []
    else if |cards| <= size then [cards]
    else [cards[..size]] + Batches(cards[size..], size)
  }

  predicate ValidAnswers<A(==)>(answers: Answers<A>) {
    ValidOutcome(answers.first) && ValidOutcome(answers.retry)
  }

  predicate Decisive(settled: seq<Output<Article>>, i: nat)
    requires i < |settled|
  {
    settled[i].outcome != Inconclusive
  }

  predicate SettledAs(o: Output<Article>, answers: Answers<Article>, batch: seq<Article>) {
    ValidAnswers(answers) && o == Settled(answers.first, answers.retry, Elements(batch))
  }

  /**
   What the batches settle as, asked one by one: the asking ends with the batches, or
   at the first inconclusive one.
   */
  ghost predicate SettlesBatches(settled: seq<Output<Article>>, batches: seq<seq<Article>>,
      answers: seq<Answers<Article>>) {
    && |settled| <= |batches| && |settled| <= |answers|
    && (forall i | 0 <= i < |settled| :: SettledAs(settled[i], answers[i], batches[i]))
    && (forall i | 0 <= i < |settled| - 1 :: Decisive(settled, i))
    && (|settled| < |batches| ==> settled != [] && !Decisive(settled, |settled| - 1))
  }

  predicate AllDecisive(settled: seq<Output<Article>>) {
    forall i | 0 <= i < |settled| :: Decisive(settled, i)
  }

  /** The answer to all batches: theirs if there is one, else the expanded reconciliation. */
  function Audited(settled: seq<Output<Article>>, final: Answers<string>): Result<Output<Article>, AuditError>
    requires ValidAnswers(final)
  {
    if |settled| == 1 then Ok(settled[0])
    else if !AllDecisive(settled) then Ok(Output(Inconclusive, [], []))
    else
      var groups := GroupMap(AllGroups(settled));
      var o := Settled(final.first, final.retry, groups.Keys);
      if o.outcome == Inconclusive then Ok(Output(Inconclusive, [], []))
      else
        CoveringRefers(o, groups);
        var e := Expand(o, groups);
        if ValidOutcome(e) then Ok(e) else Err(InvalidAnswer)
  }

  lemma {:induction false} BatchesHoldCards(cards: seq<Article>, size: nat)
    requires size >= 1
    ensures (set b, a | b in Batches(cards, size) && a in b :: a) == Elements(cards)
  {
    if |cards| > size {
      BatchesHoldCards(cards[size..], size);
      assert cards == cards[..size] + cards[size..];
      ElementsOfConcat(cards[..size], cards[size..]);
      var rest := Batches(cards[size..], size);
      assert forall a ::
          (exists b :: b in Batches(cards, size) && a in b) <==> a in cards[..size] || exists b :: b in rest && a in b;
    } else if cards != [] {
      assert Batches(cards, size) == [cards];
    }
  }

  /** If every batch answer covers its batch, the groups hold exactly the cards. */
  lemma GroupsHoldCards(settled: seq<Output<Article>>, batches: seq<seq<Article>>)
    requires |settled| == |batches|
    requires forall i | 0 <= i < |settled| :: Covers(settled[i], Elements(batches[i]))
    ensures var groups := GroupMap(AllGroups(settled));
            GroupedArticles(groups.Keys, groups) == set b, a | b in batches && a in b :: a
  {
    var gs, groups := AllGroups(settled), GroupMap(AllGroups(settled));
    BatchRefsDecide(settled);
    GroupMapLooksUp(gs);
    var all := set b, a | b in batches && a in b :: a;
    forall a | a in GroupedArticles(groups.Keys, groups)
      ensures a in all
    {
      var r :| r in groups && a in groups[r];
      var g :| g in gs && RefOf(g.place) == r;
      GroupsDescribe(settled, g);
      var i := g.place.batch;
      if g.place.StoryPlace? {
        assert settled[i].stories[g.place.story] in settled[i].stories;
        assert a in Assigned(settled[i]);
      } else {
        assert a in Elements(settled[i].detached);
      }
      assert a in Elements(batches[i]) && batches[i] in batches;
    }
    forall a | a in all
      ensures a in GroupedArticles(groups.Keys, groups)
    {
      var b :| b in batches && a in b;
      var i :| 0 <= i < |batches| && batches[i] == b;
      var g := PlaceOf(settled, i, a);
      GroupsDescribe(settled, g);
      assert RefOf(g.place) in groups && a in groups[RefOf(g.place)];
    }
  }

  /** The group that a covered Article of batch `i` falls into. */
  lemma PlaceOf(settled: seq<Output<Article>>, i: nat, a: Article) returns (g: Group)
    requires i < |settled| && a in Assigned(settled[i]) + Elements(settled[i].detached)
    ensures Describes(settled, g) && a in g.articles
  {
    var o := settled[i];
    if a in Assigned(o) {
      var s :| s in o.stories && a in s.articles;
      var j :| 0 <= j < |o.stories| && o.stories[j] == s;
      g := Group(StoryPlace(i, j), s.articles);
    } else {
      var k :| 0 <= k < |o.detached| && o.detached[k] == a;
      g := Group(DetachedPlace(i, k), [a]);
    }
  }

  lemma GroupIsList(o: Output<Article>, g: Group)
    requires o.outcome != Inconclusive && ValidOutcome(o)
    requires g.place.StoryPlace? ==> g.place.story < |o.stories| && g.articles == o.stories[g.place.story].articles
    requires g.place.DetachedPlace? ==> |g.articles| == 1
    ensures g.articles != [] && Distinct(g.articles)
  {
    if g.place.StoryPlace? {
      assert o.stories[g.place.story] in o.stories;
      assert ValidStory(o.stories[g.place.story]);
    }
  }

  lemma GroupsAreLists(settled: seq<Output<Article>>, r: string)
    requires forall i | 0 <= i < |settled| :: settled[i].outcome != Inconclusive && ValidOutcome(settled[i])
    requires r in GroupMap(AllGroups(settled))
    ensures var articles := GroupMap(AllGroups(settled))[r]; articles != [] && Distinct(articles)
  {
    var gs := AllGroups(settled);
    BatchRefsDecide(settled);
    GroupMapLooksUp(gs);
    var g :| g in gs && RefOf(g.place) == r;
    GroupsDescribe(settled, g);
    GroupIsList(settled[g.place.batch], g);
  }

  /** The case where every batch was decisive and the groups are reconciled. */
  lemma ReconciliationCovers(settled: seq<Output<Article>>, batches: seq<seq<Article>>,
      o: Output<string>)
    requires |settled| == |batches|
    requires forall i | 0 <= i < |settled| ::
               Decisive(settled, i) && ValidOutcome(settled[i]) && Covers(settled[i], Elements(batches[i]))
    requires o.outcome != Inconclusive && ValidOutcome(o) && Covers(o, GroupMap(AllGroups(settled)).Keys)
    ensures var groups := GroupMap(AllGroups(settled));
            && Refers(o, groups)
            && (ValidOutcome(Expand(o, groups)) <==> DetachedApart(o.detached, groups))
            && Assigned(Expand(o, groups)) + Elements(Expand(o, groups).detached)
            == set b, a | b in batches && a in b :: a
  {
    var groups := GroupMap(AllGroups(settled));
    GroupsHoldCards(settled, batches);
    ExpandKeepsCoverage(o, groups);
    forall r | r in groups
      ensures groups[r] != [] && Distinct(groups[r])
    {
      GroupsAreLists(settled, r);
    }
    ExpandValidIff(o, groups);
  }

  /** The reconciled answer refers to a detached group that overlaps another one. */
  predicate Overlapping(settled: seq<Output<Article>>, final: Answers<string>)
    requires ValidAnswers(final)
  {
    && |settled| != 1 && AllDecisive(settled)
    && var groups := GroupMap(AllGroups(settled));
       var o := Settled(final.first, final.retry, groups.Keys);
       o.outcome != Inconclusive && !DetachedApart(o.detached, groups)
  }

  /**
   Whatever the model answers, a batched audit either is inconclusive, or covers
   exactly the cards, or is refused; and it is refused exactly when a detached
   group shares an Article with another group.
   */
  lemma BatchedAuditCoversCards(cards: seq<Article>, size: nat, answers: seq<Answers<Article>>,
      settled: seq<Output<Article>>, final: Answers<string>)
    requires size >= 1 && ValidAnswers(final)
    requires SettlesBatches(settled, Batches(cards, size), answers)
    ensures Audited(settled, final).Ok? ==>
              var o := Audited(settled, final).value;
              ValidOutcome(o) && (o.outcome == Inconclusive || Covers(o, Elements(cards)))
    ensures Audited(settled, final).Err? <==> Overlapping(settled, final)
  {
    var batches := Batches(cards, size);
    BatchesHoldCards(cards, size);
    if |settled| == 1 {
      assert SettledAs(settled[0], answers[0], batches[0]);
      if Decisive(settled, 0) {
        assert |batches| == 1;
        assert (set b, a | b in batches && a in b :: a) == Elements(batches[0]);
      }
    } else if AllDecisive(settled) {
      var o := Settled(final.first, final.retry, GroupMap(AllGroups(settled)).Keys);
      if o.outcome != Inconclusive {
        DecisiveBatchesCover(settled, batches, answers);
        ReconciliationCovers(settled, batches, o);
      }
    }
  }

  lemma {:induction false} BatchesDisjoint(cards: seq<Article>, size: nat, i: nat, j: nat)
    requires size >= 1 && Distinct(cards) && i < j < |Batches(cards, size)|
    ensures Elements(Batches(cards, size)[i]) !! Elements(Batches(cards, size)[j])
    decreases |cards|
  {
    assert cards == cards[..size] + cards[size..];
    DistinctConcat(cards[..size], cards[size..]);
    if i == 0 {
      BatchesHoldCards(cards[size..], size);
      assert Batches(cards, size)[j] in Batches(cards[size..], size);
    } else {
      BatchesDisjoint(cards[size..], size, i - 1, j - 1);
    }
  }

  predicate StoriesDisjoint(o: Output<Article>) {
    forall i, j | 0 <= i < j < |o.stories| :: Elements(o.stories[i].articles) !! Elements(o.stories[j].articles)
  }

  lemma PlacesDisjoint(settled: seq<Output<Article>>, g: Group, h: Group)
    requires Describes(settled, g) && Describes(settled, h) && g.place != h.place && g.place.batch == h.place.batch
    requires ValidOutcome(settled[g.place.batch]) && StoriesDisjoint(settled[g.place.batch])
    ensures Elements(g.articles) !! Elements(h.articles)
  {
    var o := settled[g.place.batch];
    if g.place.StoryPlace? != h.place.StoryPlace? {
      var story, detached := if g.place.StoryPlace? then g else h, if g.place.StoryPlace? then h else g;
      assert o.stories[story.place.story] in o.stories;
      assert forall a | a in story.articles :: a in Assigned(o);
      assert detached.articles[0] in Elements(o.detached);
    }
  }

  lemma GroupWithinBatch(settled: seq<Output<Article>>, ids: set<Article>, g: Group)
    requires Describes(settled, g) && Covers(settled[g.place.batch], ids)
    ensures Elements(g.articles) <= ids
  {
    var o := settled[g.place.batch];
    if g.place.StoryPlace? {
      assert o.stories[g.place.story] in o.stories;
      assert forall a | a in g.articles :: a in Assigned(o);
    } else {
      assert g.articles[0] in Elements(o.detached);
    }
  }

  /** If no batch assigns an Article to two stories, the audit is never refused. */
  lemma DisjointStoriesAreNeverRefused(cards: seq<Article>, size: nat,
      answers: seq<Answers<Article>>, settled: seq<Output<Article>>, final: Answers<string>)
    requires size >= 1 && Distinct(cards) && ValidAnswers(final)
    requires SettlesBatches(settled, Batches(cards, size), answers)
    requires forall i | 0 <= i < |settled| :: StoriesDisjoint(settled[i])
    ensures Audited(settled, final).Ok?
  {
    BatchedAuditCoversCards(cards, size, answers, settled, final);
    if AllDecisive(settled) {
      DecisiveBatchesCover(settled, Batches(cards, size), answers);
      DisjointStoriesNeverOverlap(cards, size, settled, final);
    }
  }

  lemma DecisiveBatchesCover(settled: seq<Output<Article>>, batches: seq<seq<Article>>,
      answers: seq<Answers<Article>>)
    requires SettlesBatches(settled, batches, answers) && AllDecisive(settled)
    ensures |settled| == |batches|
    ensures forall i | 0 <= i < |settled| ::
              Decisive(settled, i) && ValidOutcome(settled[i]) && Covers(settled[i], Elements(batches[i]))
  {
    forall i | 0 <= i < |settled|
      ensures ValidOutcome(settled[i]) && Covers(settled[i], Elements(batches[i]))
    {
      assert Decisive(settled, i) && SettledAs(settled[i], answers[i], batches[i]);
    }
    assert settled != [] ==> Decisive(settled, |settled| - 1);
  }

  lemma DisjointStoriesNeverOverlap(cards: seq<Article>, size: nat, settled: seq<Output<Article>>,
      final: Answers<string>)
    requires size >= 1 && Distinct(cards) && |settled| == |Batches(cards, size)| && ValidAnswers(final)
    requires forall i | 0 <= i < |settled| ::
               ValidOutcome(settled[i]) && StoriesDisjoint(settled[i])
                   && Covers(settled[i], Elements(Batches(cards, size)[i]))
    ensures !Overlapping(settled, final)
  {
    var groups := GroupMap(AllGroups(settled));
    forall r, q | r in groups && q in groups && r != q
      ensures Elements(groups[r]) !! Elements(groups[q])
    {
      GroupsDisjoint(cards, size, settled, r, q);
    }
  }

  lemma GroupsDisjoint(cards: seq<Article>, size: nat, settled: seq<Output<Article>>, r: string,
      q: string)
    requires size >= 1 && Distinct(cards) && |settled| == |Batches(cards, size)|
    requires forall i | 0 <= i < |settled| ::
               ValidOutcome(settled[i]) && StoriesDisjoint(settled[i])
                   && Covers(settled[i], Elements(Batches(cards, size)[i]))
    requires r in GroupMap(AllGroups(settled)) && q in GroupMap(AllGroups(settled)) && r != q
    ensures Elements(GroupMap(AllGroups(settled))[r]) !! Elements(GroupMap(AllGroups(settled))[q])
  {
    var gs, batches := AllGroups(settled), Batches(cards, size);
    BatchRefsDecide(settled);
    GroupMapLooksUp(gs);
    var g :| g in gs && RefOf(g.place) == r;
    var h :| h in gs && RefOf(h.place) == q;
    GroupsDescribe(settled, g);
    GroupsDescribe(settled, h);
    var i, j := g.place.batch, h.place.batch;
    if i == j {
      PlacesDisjoint(settled, g, h);
    } else {
      GroupWithinBatch(settled, Elements(batches[i]), g);
      GroupWithinBatch(settled, Elements(batches[j]), h);
      BatchesDisjoint(cards, size, if i < j then i else j, if i < j then j else i);
    }
  }

  // ---- Which batch answers admit a refusal ----

  /** Some valid reconciliation of these batch answers is refused. */
  ghost predicate Refusable(settled: seq<Output<Article>>) {
    exists final: Answers<string> :: ValidAnswers(final) && Audited(settled, final).Err?
  }

  lemma GroupIsListed(settled: seq<Output<Article>>, g: Group)
    requires Describes(settled, g)
    ensures RefOf(g.place) in GroupMap(AllGroups(settled)) && GroupMap(AllGroups(settled))[RefOf(g.place)] == g.articles
  {
    BatchRefsDecide(settled);
    GroupMapLooksUp(AllGroups(settled));
    GroupsDescribe(settled, g);
  }

  lemma {:induction false} ListOf<T>(s: set<T>) returns (list: seq<T>)
    ensures Distinct(list) && Elements(list) == s
  {
    if s == {} {
      list := [];
    } else {
      var x :| x in s;
      var rest := ListOf(s - {x});
      list := [x] + rest;
      DistinctConcat([x], rest);
      ElementsOfConcat([x], rest);
    }
  }

  lemma AssignedByOne<A>(story: Story<A>)
    ensures Assigned(Output(Coherent, [story], [])) == Elements(story.articles)
  {
    assert story in [story];
  }

  /** The reconciliation that detaches the group `p` and puts all others into one story. */
  lemma Detaching(keys: set<string>, p: string, q: string) returns (o: Output<string>)
    requires p in keys && q in keys && p != q
    ensures ValidOutcome(o) && o.outcome == Coherent && o.detached == [p] && Covers(o, keys)
  {
    var rest := ListOf(keys - {p});
    assert q in Elements(rest);
    o := Output(Coherent, [Story(ORIGINAL, rest)], [p]);
    assert o.stories[0].ref == ORIGINAL;
    AssignedByOne(o.stories[0]);
    assert Assigned(o) == Elements(rest);
  }

  lemma SharedArticleIsRefusable(settled: seq<Output<Article>>, i: nat)
    requires |settled| > 1 && AllDecisive(settled) && i < |settled| && !StoriesDisjoint(settled[i])
    requires forall final | ValidAnswers(final) :: Audited(settled, final).Err? <==> Overlapping(settled, final)
    ensures Refusable(settled)
  {
    var stories := settled[i].stories;
    var j: nat, k: nat :| j < k < |stories| && !(Elements(stories[j].articles) !! Elements(stories[k].articles));
    var g, h := Group(StoryPlace(i, j), stories[j].articles), Group(StoryPlace(i, k), stories[k].articles);
    GroupIsListed(settled, g);
    GroupIsListed(settled, h);
    var groups, p, q := GroupMap(AllGroups(settled)), RefOf(g.place), RefOf(h.place);
    if p == q {
      RefsInjective(g.place, h.place);
    }
    var o := Detaching(groups.Keys, p, q);
    assert p in o.detached && !(Elements(groups[p]) !! Elements(groups[q]));
    assert Overlapping(settled, Answers(o, o));
    assert ValidAnswers(Answers(o, o)) && Audited(settled, Answers(o, o)).Err?;
  }

  /**
   Before the reconciliation is asked: it can be refused if and only if several
   batches were all decisive and one of them put an Article into two stories.
   */
  lemma RefusableIffStoriesShare(cards: seq<Article>, size: nat, answers: seq<Answers<Article>>,
      settled: seq<Output<Article>>)
    requires size >= 1 && Distinct(cards) && SettlesBatches(settled, Batches(cards, size), answers)
    ensures Refusable(settled) <==>
            |settled| > 1 && AllDecisive(settled) && exists i :: 0 <= i < |settled| && !StoriesDisjoint(settled[i])
  {
    forall final | ValidAnswers(final)
      ensures Audited(settled, final).Err? <==> Overlapping(settled, final)
      ensures (forall i | 0 <= i < |settled| :: StoriesDisjoint(settled[i])) ==> Audited(settled, final).Ok?
    {
      BatchedAuditCoversCards(cards, size, answers, settled, final);
      if forall i | 0 <= i < |settled| :: StoriesDisjoint(settled[i]) {
        DisjointStoriesAreNeverRefused(cards, size, answers, settled, final);
      }
    }
    if |settled| > 1 && AllDecisive(settled) {
      if i: nat :| i < |settled| && !StoriesDisjoint(settled[i]) {
        SharedArticleIsRefusable(settled, i);
      }
    }
  }

  /** A split whose two stories share the Article `a`. */
  function Shared(a: Article, b: Article): (o: Output<Article>)
    requires a != b
    ensures ValidOutcome(o) && Covers(o, {a, b}) && !StoriesDisjoint(o)
  {
    var o := Output(Split, [Story(ORIGINAL, [a, b]), Story("story_b", [a])], []);
    assert o.stories[0].ref == ORIGINAL && |o.stories[1].ref| != |ORIGINAL|;
    assert a in Elements(o.stories[0].articles) && a in Elements(o.stories[1].articles);
    assert Assigned(o) == {a, b} by {
      assert o.stories[0] in o.stories && a in o.stories[0].articles && b in o.stories[0].articles;
    }
    o
  }

  function Alone(c: Article): (o: Output<Article>)
    ensures ValidOutcome(o) && Covers(o, {c})
  {
    var o := Output(Coherent, [Story(ORIGINAL, [c])], []);
    assert o.stories[0].ref == ORIGINAL;
    AssignedByOne(o.stories[0]);
    o
  }

  lemma TwoBatches(a: Article, b: Article, c: Article, answers: seq<Answers<Article>>)
    requires a != b
    requires answers == [Answers(Shared(a, b), Shared(a, b)), Answers(Alone(c), Alone(c))]
    ensures SettlesBatches([Shared(a, b), Alone(c)], Batches([a, b, c], 2), answers)
  {
    assert [a, b, c][..2] == [a, b] && [a, b, c][2..] == [c];
    assert Batches([a, b, c], 2) == [[a, b], [c]];
    assert Elements([a, b]) == {a, b} && Elements([c]) == {c};
  }

  /** Three cards in batches of two, and valid answers to every prompt, that end in a refusal. */
  lemma RefusalIsReachable(a: Article, b: Article, c: Article)
    returns (settled: seq<Output<Article>>, answers: seq<Answers<Article>>, final: Answers<string>)
    requires Distinct([a, b, c])
    ensures ValidAnswers(final) && SettlesBatches(settled, Batches([a, b, c], 2), answers)
    ensures Audited(settled, final).Err?
  {
    assert [a, b, c][0] != [a, b, c][1];
    settled := [Shared(a, b), Alone(c)];
    answers := [Answers(Shared(a, b), Shared(a, b)), Answers(Alone(c), Alone(c))];
    TwoBatches(a, b, c, answers);
    RefusableIffStoriesShare([a, b, c], 2, answers, settled);
    assert !StoriesDisjoint(settled[0]);
    final :| ValidAnswers(final) && Audited(settled, final).Err?;
  }

  /** Batch `i` settles as inconclusive. */
  predicate StopsAt(answers: seq<Answers<Article>>, batches: seq<seq<Article>>, i: nat) {
    && i < |answers| && i < |batches| && ValidAnswers(answers[i])
    && Settled(answers[i].first, answers[i].retry, Elements(batches[i])).outcome == Inconclusive
  }

  /** There is an answer for every batch that is asked. */
  ghost predicate Suffice(answers: seq<Answers<Article>>, batches: seq<seq<Article>>) {
    |answers| >= |batches| || exists i: nat :: StopsAt(answers, batches, i)
  }

  /** The batches asked so far have all settled decisively. */
  ghost predicate AskedSoFar(settled: seq<Output<Article>>, batches: seq<seq<Article>>,
      answers: seq<Answers<Article>>) {
    && |settled| <= |batches| && |settled| <= |answers|
    && forall i | 0 <= i < |settled| :: SettledAs(settled[i], answers[i], batches[i]) && Decisive(settled, i)
  }

  lemma AskedWithoutStop(settled: seq<Output<Article>>, batches: seq<seq<Article>>, answers: seq<Answers<Article>>)
    requires AskedSoFar(settled, batches, answers) && Suffice(answers, batches) && |settled| < |batches|
    ensures |settled| < |answers|
  {
    if i: nat :| StopsAt(answers, batches, i) && i < |settled| {
      assert Decisive(settled, i) && SettledAs(settled[i], answers[i], batches[i]);
    }
  }

  lemma AskedOneMore(settled: seq<Output<Article>>, batches: seq<seq<Article>>, answers: seq<Answers<Article>>,
      o: Output<Article>)
    requires AskedSoFar(settled, batches, answers) && |settled| < |batches| && |settled| < |answers|
    requires SettledAs(o, answers[|settled|], batches[|settled|])
    ensures o.outcome == Inconclusive ==> SettlesBatches(settled + [o], batches, answers)
    ensures o.outcome != Inconclusive ==> AskedSoFar(settled + [o], batches, answers)
  {
    var more := settled + [o];
    assert forall i | 0 <= i < |settled| :: more[i] == settled[i] && Decisive(settled, i);
  }

  /** The calls for the batches, which stop at the first inconclusive one. */
  method SettleBatches(batches: seq<seq<Article>>, answers: seq<Answers<Article>>)
      returns (settled: seq<Output<Article>>)
    requires forall i | 0 <= i < |answers| :: ValidAnswers(answers[i])
    requires Suffice(answers, batches)
    ensures SettlesBatches(settled, batches, answers)
  {
    settled := [];
    while |settled| < |batches|
      invariant AskedSoFar(settled, batches, answers)
    {
      var k := |settled|;
      AskedWithoutStop(settled, batches, answers);
      var o := Settled(answers[k].first, answers[k].retry, Elements(batches[k]));
      AskedOneMore(settled, batches, answers, o);
      settled := settled + [o];
      if o.outcome == Inconclusive {
        return;
      }
    }
  }

  /** `_run_audit`. */
  method RunAudit(cards: seq<Article>, size: nat, answers: seq<Answers<Article>>, final: Answers<string>)
    returns (r: Result<Output<Article>, AuditError>, settled: seq<Output<Article>>)
    requires size >= 1 && ValidAnswers(final)
    requires forall i | 0 <= i < |answers| :: ValidAnswers(answers[i])
    requires Suffice(answers, Batches(cards, size))
    ensures SettlesBatches(settled, Batches(cards, size), answers)
    ensures r == Audited(settled, final)
  {
    var batches := Slices(cards, size);
    settled := SettleBatches(batches, answers);
    if settled != [] {
      var last := settled[|settled| - 1];
      assert SettledAs(last, answers[|settled| - 1], batches[|settled| - 1]);
      if |batches| == 1 || last.outcome == Inconclusive {
        assert |settled| == 1 || !Decisive(settled, |settled| - 1);
        r := Ok(last);
        return;
      }
    }
    forall i | 0 <= i < |settled|
      ensures ValidOutcome(settled[i]) && Decisive(settled, i)
    {
      assert SettledAs(settled[i], answers[i], batches[i]);
    }
    r := Reconcile(settled, final);
  }

  /** The end of `_run_audit`: grouping, reconciling and expanding the answers of several batches. */
  method Reconcile(settled: seq<Output<Article>>, final: Answers<string>)
    returns (r: Result<Output<Article>, AuditError>)
    requires ValidAnswers(final) && |settled| != 1 && AllDecisive(settled)
    requires forall i | 0 <= i < |settled| :: ValidOutcome(settled[i])
    ensures r == Audited(settled, final)
  {
    forall i | 0 <= i < |settled|
      ensures DetachesOthers(settled[i])
    {
      ValidDetachesOthers(settled[i]);
    }
    var groups := GroupBatches(settled);
    var o := Settled(final.first, final.retry, groups.Keys);
    if o.outcome == Inconclusive {
      r := Ok(Output(Inconclusive, [], []));
      return;
    }
    CoveringRefers(o, groups);
    var e := Expand(o, groups);
    r := if ValidOutcome(e) then Ok(e) else Err(InvalidAnswer);
  }

  /** No Article is both assigned and detached. */
  predicate DetachesOthers(o: Output<Article>) {
    forall k | 0 <= k < |o.detached| :: o.detached[k] !in Assigned(o)
  }

  lemma ValidDetachesOthers(o: Output<Article>)
    requires ValidOutcome(o)
    ensures DetachesOthers(o)
  {
    assert forall k | 0 <= k < |o.detached| :: o.detached[k] in Elements(o.detached);
  }

  /** The grouping loop of `_run_audit`, over decisive batches. */
  method GroupBatches(settled: seq<Output<Article>>) returns (groups: map<string, seq<Article>>)
    requires forall i | 0 <= i < |settled| :: DetachesOthers(settled[i])
    ensures groups == GroupMap(AllGroups(settled))
  {
    groups := map[];
    for i := 0 to |settled|
      invariant groups == GroupMap(FirstGroups(settled, i))
    {
      groups := AddGroups(groups, FirstGroups(settled, i), i, settled[i]);
    }
  }

  lemma Reassociate<T>(xs: seq<T>, ys: seq<T>, zs: seq<T>)
    ensures (xs + ys) + zs == xs + (ys + zs)
  {
  }

  lemma Regroup<T>(xs: seq<T>, ys: seq<T>, k: nat)
    requires k < |ys|
    ensures xs + ys[..k + 1] == (xs + ys[..k]) + [ys[k]]
  {
  }

  lemma GroupMapGrows(gs: seq<Group>, g: Group)
    ensures GroupMap(gs + [g]) == GroupMap(gs)[RefOf(g.place) := g.articles]
  {
    assert (gs + [g])[..|gs|] == gs;
  }

  /** The inner loops of `_run_audit`: stories first, then the detached Articles no story claims. */
  method AddGroups(groups: map<string, seq<Article>>, ghost gs: seq<Group>, i: nat, o: Output<Article>)
    returns (groups': map<string, seq<Article>>)
    requires groups == GroupMap(gs) && DetachesOthers(o)
    ensures groups' == GroupMap(gs + BatchGroups(i, o))
  {
    groups' := AddStories(groups, gs, i, o);
    groups' := AddDetached(groups', gs + StoryGroups(i, o), i, o);
    Reassociate(gs, StoryGroups(i, o), DetachedGroups(i, o));
  }

  method AddStories(groups: map<string, seq<Article>>, ghost gs: seq<Group>, i: nat, o: Output<Article>)
    returns (groups': map<string, seq<Article>>)
    requires groups == GroupMap(gs)
    ensures groups' == GroupMap(gs + StoryGroups(i, o))
  {
    groups' := groups;
    assert gs + StoryGroups(i, o)[..0] == gs;
    for j := 0 to |o.stories|
      invariant groups' == GroupMap(gs + StoryGroups(i, o)[..j])
    {
      Regroup(gs, StoryGroups(i, o), j);
      GroupMapGrows(gs + StoryGroups(i, o)[..j], StoryGroups(i, o)[j]);
      groups' := groups'[RefOf(StoryPlace(i, j)) := o.stories[j].articles];
    }
    assert StoryGroups(i, o)[..|o.stories|] == StoryGroups(i, o);
  }

  method AddDetached(groups: map<string, seq<Article>>, ghost gs: seq<Group>, i: nat, o: Output<Article>)
    returns (groups': map<string, seq<Article>>)
    requires groups == GroupMap(gs) && DetachesOthers(o)
    ensures groups' == GroupMap(gs + DetachedGroups(i, o))
  {
    groups' := groups;
    assert gs + DetachedGroups(i, o)[..0] == gs;
    for k := 0 to |o.detached|
      invariant groups' == GroupMap(gs + DetachedGroups(i, o)[..k])
    {
      Regroup(gs, DetachedGroups(i, o), k);
      GroupMapGrows(gs + DetachedGroups(i, o)[..k], DetachedGroups(i, o)[k]);
      if o.detached[k] !in Assigned(o) {
        groups' := groups'[RefOf(DetachedPlace(i, k)) := [o.detached[k]]];
      }
    }
    assert DetachedGroups(i, o)[..|o.detached|] == DetachedGroups(i, o);
  }

  function Tail(cards: seq<Article>, index: nat): seq<Article> {
    if index <= |cards| then cards[index..] else []
  }

  /** `cards[index : index + size]` */
  function Slice(cards: seq<Article>, index: nat, size: nat): seq<Article>
    requires index <= |cards|
  {
    cards[index..if index + size <= |cards| then index + size else |cards|]
  }

  lemma NextSlice(cards: seq<Article>, index: nat, size: nat)
    requires size >= 1 && index < |cards|
    ensures Batches(Tail(cards, index), size) == [Slice(cards, index, size)] + Batches(Tail(cards, index + size), size)
  {
    var rest := cards[index..];
    if |rest| > size {
      assert rest[size..] == cards[index + size..] && rest[..size] == cards[index..index + size];
    } else {
      assert Tail(cards, index + size) == [];
      assert rest == Slice(cards, index, size);
    }
  }

  method Slices(cards: seq<Article>, size: nat) returns (batches: seq<seq<Article>>)
    requires size >= 1
    ensures batches == Batches(cards, size)
  {
    batches := [];
    var index := 0;
    ghost var rest := Batches(cards, size);
    assert Tail(cards, 0) == cards;
    while index < |cards|
      invariant rest == Batches(Tail(cards, index), size)
      invariant batches + rest == Batches(cards, size)
    {
      NextSlice(cards, index, size);
      var slice := Slice(cards, index, size);
      ghost var later := Batches(Tail(cards, index + size), size);
      Reassociate(batches, [slice], later);
      batches := batches + [slice];
      index, rest := index + size, later;
    }
    assert Tail(cards, index) == [];
  }
}
