/**
 What an answer about Events leaves in the rows once it is written: each linked Event
 says what it said and what every link to it says, and nothing else; each created Event
 says what its decision says.
 */
module EventContents {
  import opened Wrappers
  import opened EventDates
  import opened EventAnchors
  import opened EventWrites

  /** The numbers of a date are its year, its month and its day, as far as there are any. */
  lemma DatePartsAreTheNumbers(date: Option<seq<nat>>, precision: Precision)
    requires WellDated(date, precision)
    ensures var p := DateParts(date, precision);
            && p.year == (if date.Some? then Some(date.value[0]) else None)
            && p.month == (if date.Some? && |date.value| > 1 then Some(date.value[1]) else None)
            && p.day == (if date.Some? && |date.value| > 2 then Some(date.value[2]) else None)
            && precision == PrecisionOf(p)
  {
  }

  predicate AllDated(decisions: seq<Decision>) {
    forall d | d in decisions :: WellDated(d.date, d.precision)
  }

  /** The dates of the links to `id` among the first `k` decisions. */
  function LinkDates(decisions: seq<Decision>, k: nat, id: EventId): seq<Parts>
    requires AllDated(decisions) && k <= |decisions|
  {
    if k == 0 then []
    else
      var d := decisions[k - 1];
      assert d in decisions;
      LinkDates(decisions, k - 1, id)
        + if d.action == LinkExisting(id) then [DateParts(d.date, d.precision)] else []
  }

  predicate Locates(d: Decision, id: EventId) {
    d.action == LinkExisting(id) && d.location.Some?
  }

  /** Decision `i` is the first of the links to `id` that gives a location. */
  predicate FirstToLocate(decisions: seq<Decision>, i: nat, id: EventId)
    requires i < |decisions|
  {
    Locates(decisions[i], id) && forall j | 0 <= j < i :: !Locates(decisions[j], id)
  }

  /** The location of the row is its own, or the first that a link gives; all of them mean the same place. */
  ghost predicate LocationSays(fold: Fold, before: Option<string>, after: Option<string>, decisions: seq<Decision>,
      k: nat, id: EventId)
    requires k <= |decisions|
  {
    && (before.Some? ==> after == before)
    && (before.None? && after.Some? ==>
          exists i :: 0 <= i < k && FirstToLocate(decisions, i, id) && decisions[i].location == after)
    && forall i | 0 <= i < k && Locates(decisions[i], id) ::
         after.Some? && fold(after.value) == fold(decisions[i].location.value)
  }

  /** The row says what it said and what the links among the first `k` decisions say, and no more. */
  ghost predicate SaysAll(fold: Fold, before: EventRow, after: EventRow, decisions: seq<Decision>, k: nat, id: EventId)
    requires AllDated(decisions) && k <= |decisions|
  {
    && IsJoin(after.parts, before.parts, LinkDates(decisions, k, id))
    && LocationSays(fold, before.location, after.location, decisions, k, id)
  }

  /** The decisions among the first `k` that create an Event, in order. */
  function Creations(decisions: seq<Decision>, k: nat): seq<Decision>
    requires k <= |decisions|
  {
    if k == 0 then []
    else Creations(decisions, k - 1) + if decisions[k - 1].action == CreateNew then [decisions[k - 1]] else []
  }

  predicate CreatedFrom(row: EventRow, d: Decision) {
    && row.location == d.location && row.precision == d.precision
    && WellDated(d.date, d.precision) && row.parts == DateParts(d.date, d.precision)
  }

  ghost predicate HoldsAll(fold: Fold, rows: Rows, t: Table, decisions: seq<Decision>, k: nat)
    requires AllDated(decisions) && k <= |decisions|
  {
    && t.rows.Keys == rows.Keys
    && (forall id | id in rows :: SaysAll(fold, rows[id], t.rows[id], decisions, k, id))
    && |t.created| == |Creations(decisions, k)|
    && forall n | 0 <= n < |t.created| :: CreatedFrom(t.created[n], Creations(decisions, k)[n])
  }

  lemma JoinExtends(u: Parts, v: Parts, p: Parts, dates: seq<Parts>, d: Parts)
    requires IsJoin(u, p, dates) && IsJoin(v, u, [d])
    ensures IsJoin(v, p, dates + [d])
  {
    assert d in [d] && forall x :: x in dates + [d] <==> x in dates || x == d;
    forall w | UpperBound(w, p, dates + [d])
      ensures Below(v, w)
    {
      assert UpperBound(w, p, dates) && Below(d, w);
      assert UpperBound(w, u, [d]);
    }
    forall x | x in dates + [d]
      ensures Below(x, v)
    {
    }
  }

  /** What a link that is written does to the location of its Event. */
  lemma LinkedLocation(fold: Fold, row: EventRow, after: EventRow, d: Decision)
    requires WellDated(d.date, d.precision) && Linked(fold, row, d) == Ok(after)
    ensures after.location == if row.location.Some? then row.location else d.location
    ensures row.location.Some? && d.location.Some? ==> fold(row.location.value) == fold(d.location.value)
  {
  }

  lemma OneMoreLocation(fold: Fold, before: Option<string>, row: Option<string>, after: Option<string>,
      decisions: seq<Decision>, k: nat, id: EventId)
    requires k < |decisions| && LocationSays(fold, before, row, decisions, k, id)
    requires decisions[k].action == LinkExisting(id)
    requires after == if row.Some? then row else decisions[k].location
    requires row.Some? && decisions[k].location.Some? ==> fold(row.value) == fold(decisions[k].location.value)
    ensures LocationSays(fold, before, after, decisions, k + 1, id)
  {
    if row.None? && after.Some? {
      assert FirstToLocate(decisions, k, id);
    }
  }

  lemma OneMoreDate(fold: Fold, row: EventRow, after: EventRow, d: Decision)
    requires WellDated(d.date, d.precision) && Possible(d.date) && CheckRow(row) && Linked(fold, row, d) == Ok(after)
    ensures IsJoin(after.parts, row.parts, [DateParts(d.date, d.precision)])
  {
    DatePartsAreTheNumbers(d.date, d.precision);
    EnrichedIsJoin(row, DateParts(d.date, d.precision));
  }

  lemma OtherEventsStay(fold: Fold, before: EventRow, row: EventRow, decisions: seq<Decision>, k: nat, id: EventId)
    requires AllDated(decisions) && k < |decisions| && SaysAll(fold, before, row, decisions, k, id)
    requires decisions[k].action != LinkExisting(id)
    ensures SaysAll(fold, before, row, decisions, k + 1, id)
  {
    assert LinkDates(decisions, k + 1, id) == LinkDates(decisions, k, id);
  }

  lemma LinkedEventSaysMore(fold: Fold, before: EventRow, row: EventRow, after: EventRow, decisions: seq<Decision>,
      k: nat, id: EventId)
    requires AllDated(decisions) && k < |decisions| && SaysAll(fold, before, row, decisions, k, id)
    requires decisions[k].action == LinkExisting(id) && decisions[k] in decisions
    requires Possible(decisions[k].date) && CheckRow(row) && Linked(fold, row, decisions[k]) == Ok(after)
    ensures SaysAll(fold, before, after, decisions, k + 1, id)
  {
    var d := decisions[k];
    OneMoreDate(fold, row, after, d);
    JoinExtends(row.parts, after.parts, before.parts, LinkDates(decisions, k, id), DateParts(d.date, d.precision));
    LinkedLocation(fold, row, after, d);
    OneMoreLocation(fold, before.location, row.location, after.location, decisions, k, id);
  }

  lemma OneMoreHeld(fold: Fold, candidates: Candidates, rows: Rows, t: Table, t': Table, decisions: seq<Decision>,
      k: nat)
    requires Writable(candidates, decisions) && k < |decisions| && decisions[k] in decisions
    requires AllDated(decisions) && HoldsAll(fold, rows, t, decisions, k)
    requires Staged(fold, candidates, t, decisions[k]) == Ok(t')
    requires decisions[k].action == Reject || Possible(decisions[k].date)
    requires forall id | id in t.rows :: CheckRow(t.rows[id])
    ensures HoldsAll(fold, rows, t', decisions, k + 1)
  {
    var d := decisions[k];
    forall id | id in rows
      ensures SaysAll(fold, rows[id], t'.rows[id], decisions, k + 1, id)
    {
      assert SaysAll(fold, rows[id], t.rows[id], decisions, k, id);
      if d.action == LinkExisting(id) {
        LinkedEventSaysMore(fold, rows[id], t.rows[id], t'.rows[id], decisions, k, id);
      } else {
        OtherEventsStay(fold, rows[id], t.rows[id], decisions, k, id);
      }
    }
  }

  lemma {:induction false} HeldUpTo(fold: Fold, candidates: Candidates, rows: Rows, decisions: seq<Decision>,
      reloads: set<nat>, k: nat)
    requires Writable(candidates, decisions) && AllDated(decisions) && k <= |decisions| && LinksNoZeroPart(decisions)
    requires (forall id | id in rows :: CheckRow(rows[id])) && WritesPossible(decisions, k)
    requires PersistedUpTo(fold, candidates, rows, decisions, reloads, k).Ok?
    ensures HoldsAll(fold, rows, PersistedUpTo(fold, candidates, rows, decisions, reloads, k).value, decisions, k)
  {
    if k > 0 {
      HeldUpTo(fold, candidates, rows, decisions, reloads, k - 1);
      UpToChecked(fold, candidates, rows, decisions, reloads, k - 1);
      assert decisions[k - 1] in decisions;
      OneMoreHeld(fold, candidates, rows, PersistedUpTo(fold, candidates, rows, decisions, reloads, k - 1).value,
          PersistedUpTo(fold, candidates, rows, decisions, reloads, k).value, decisions, k - 1);
    }
  }

  /**
   Once an answer is written, each Event there was says exactly what it said joined with
   the dates of the links to it, and has its own location or the first one that a link
   gives; and each creation has become an Event with its date and location, in order.
   */
  lemma WrittenRowsSayAll(fold: Fold, candidates: Candidates, rows: Rows, decisions: seq<Decision>, reloads: set<nat>)
    requires Writable(candidates, decisions)
    requires LinksNoZeroPart(decisions) && forall id | id in rows :: CheckRow(rows[id])
    requires Persisted(fold, candidates, rows, decisions, reloads).Ok?
    ensures AllDated(decisions)
    ensures HoldsAll(fold, rows, Persisted(fold, candidates, rows, decisions, reloads).value, decisions, |decisions|)
  {
    WrittenRowsPassChecks(fold, candidates, rows, decisions, reloads);
    HeldUpTo(fold, candidates, rows, decisions, reloads, |decisions|);
  }

  /** What the normalising pass leaves is written whole, if its dates exist. */
  lemma NormalizedAnswersAreWritten(fold: Fold, rows: Rows, b: Batch, decisions: seq<Decision>, out: seq<Decision>,
      reloads: set<nat>)
    requires ValidBatch(rows, b, decisions) && TruthyRows(rows) && TruthyItems(rows, b)
    requires forall id | id in rows :: CheckRow(rows[id])
    requires Normalized(fold, rows, b, decisions, out) && WritesPossible(out, |out|)
    ensures Writable(b.candidates, out) && AllDated(out)
    ensures Persisted(fold, b.candidates, rows, out, reloads).Ok?
    ensures HoldsAll(fold, rows, Persisted(fold, b.candidates, rows, out, reloads).value, out, |out|)
  {
    NormalizedLinksNeverConflict(fold, rows, b, decisions, out, reloads);
    TruthyLinksHaveNoZeroPart(fold, rows, b, decisions, out);
    WrittenRowsSayAll(fold, b.candidates, rows, out, reloads);
  }
}
