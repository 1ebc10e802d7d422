/**
 The answer of a coherence audit, its shape contract, and the coverage test.
 `A` is what the answer talks about: Articles for one batch of cards, group
 references for the reconciliation of several batches.
 */
module AuditOutput {
  import opened Collections
  import opened Wrappers

  datatype Outcome = Coherent | Split | Inconclusive

  datatype Story<A> = Story(ref: string, articles: seq<A>)

  datatype Output<A> = Output(outcome: Outcome, stories: seq<Story<A>>, detached: seq<A>)

  datatype CoverageError = BothAssignedAndDetached | UnknownArticle | OmittedArticle

  const ORIGINAL := "original"

  /** The word "original", or "story_" and at least one lower-case letter, digit or underscore. */
  predicate IsStoryRef(ref: string) {
    || ref == ORIGINAL
    || ("story_" < ref && forall i | 6 <= i < |ref| :: 'a' <= ref[i] <= 'z' || '0' <= ref[i] <= '9' || ref[i] == '_')
  }

  /** Every Article some story claims. */
  function Assigned<A>(o: Output<A>): set<A> {
    set s, a | s in o.stories && a in s.articles :: a
  }

  predicate ValidStory<A(==)>(s: Story<A>) {
    IsStoryRef(s.ref) && s.articles != [] && Distinct(s.articles)
  }

  /** The shape that `CaseCoherenceAuditOutput.validate_outcome` accepts. */
  predicate ValidOutcome<A(==)>(o: Output<A>) {
    if o.outcome == Inconclusive then
      o.stories == [] && o.detached == []
    else
      && (exists j :: 0 <= j < |o.stories| && o.stories[j].ref == ORIGINAL)
      && (forall i, j | 0 <= i < j < |o.stories| :: o.stories[i].ref != o.stories[j].ref)
      && (o.outcome == Coherent ==> |o.stories| == 1)
      && (o.outcome == Split ==> |o.stories| >= 2)
      && (forall s | s in o.stories :: ValidStory(s))
      && Distinct(o.detached)
      && Assigned(o) !! Elements(o.detached)
  }

  /** `_validate_article_coverage`: nothing when the answer accounts for exactly `ids`. */
  function ValidateCoverage<A>(o: Output<A>, ids: set<A>): (error: Option<CoverageError>)
    ensures error.None? <==> o.outcome == Inconclusive || Covers(o, ids)
  {
    var claimed := Assigned(o);
    var detached := Elements(o.detached);
    if o.outcome == Inconclusive then None
    else if !(claimed !! detached) then Some(BothAssignedAndDetached)
    else if !(claimed + detached <= ids) then Some(UnknownArticle)
    else if !(ids <= claimed + detached) then Some(OmittedArticle)
    else None
  }

  predicate Claims<A(==)>(o: Output<A>, a: A) {
    exists s :: s in o.stories && a in s.articles
  }

  /** Each of `ids` is claimed by some story or detached, never both; and nothing else is either. */
  ghost predicate AccountsForEach<A(!new)>(o: Output<A>, ids: set<A>) {
    && (forall a :: a in ids <==> Claims(o, a) || a in o.detached)
    && (forall a :: Claims(o, a) ==> a !in o.detached)
  }

  lemma CoveringAccountsForEach<A(!new)>(o: Output<A>, ids: set<A>)
    ensures Covers(o, ids) <==> AccountsForEach(o, ids)
  {
    var detached := Elements(o.detached);
    assert forall a :: a in Assigned(o) <==> Claims(o, a);
    assert forall a :: a in detached <==> a in o.detached;
    if AccountsForEach(o, ids) {
      assert forall a :: a in Assigned(o) + detached <==> a in ids;
    }
    if Covers(o, ids) {
      assert forall a :: a in ids <==> a in Assigned(o) || a in detached;
      assert forall a | a in Assigned(o) :: a !in detached;
    }
  }

  /**
   The error names the first thing that is wrong: an Article both claimed and detached, an
   unknown or an omitted one.
   */
  lemma CoverageErrorsTell<A(!new)>(o: Output<A>, ids: set<A>)
    requires o.outcome != Inconclusive
    ensures var error := ValidateCoverage(o, ids);
            && (error == Some(BothAssignedAndDetached) <==> exists a :: Claims(o, a) && a in o.detached)
            && (error == Some(UnknownArticle)
                <==> && error != Some(BothAssignedAndDetached)
                     && exists a :: (Claims(o, a) || a in o.detached) && a !in ids)
            && (error == Some(OmittedArticle)
                <==> && error != Some(BothAssignedAndDetached) && error != Some(UnknownArticle)
                     && exists a :: a in ids && !Claims(o, a) && a !in o.detached)
  {
    var claimed, detached := Assigned(o), Elements(o.detached);
    assert forall a :: a in claimed <==> Claims(o, a);
    assert forall a :: a in detached <==> a in o.detached;
  }

  /** Each of `ids`, and nothing else, is either assigned or detached, never both. */
  predicate Covers<A>(o: Output<A>, ids: set<A>) {
    Assigned(o) + Elements(o.detached) == ids && Assigned(o) !! Elements(o.detached)
  }
}
