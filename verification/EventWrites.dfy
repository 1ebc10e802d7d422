/** What the two passes over the Event links of one answer guarantee together. */
module EventWrites {
  import opened Wrappers
  import opened EventDates
  import opened EventAnchors

  // ---- What the first pass leaves cannot be refused ----

  predicate NonZero(p: Parts) {
    p.year != Some(0) && p.month != Some(0) && p.day != Some(0)
  }

  /** No known anchor that Python's `or` would take for a missing one. */
  predicate Truthy(a: Anchors) {
    NonZero(a.parts) && a.location != Some("")
  }

  predicate TruthyItem(item: Item)
    requires WellDated(item.date, item.precision)
  {
    Truthy(Anchors(ItemParts(item), item.location))
  }

  ghost predicate TruthyRows(rows: Rows) {
    forall id | id in rows :: Truthy(AnchorsOf(rows[id]))
  }

  ghost predicate TruthyItems(rows: Rows, b: Batch)
    requires ValidInput(rows, b)
  {
    forall ref | ref in b.items :: TruthyItem(b.items[ref])
  }

  /** How one decision may come out of the pass: a link keeps a date exactly if it is the item's own, with evidence. */
  predicate Normalizes(b: Batch, d: Decision, out: Decision) {
    && out.ref == d.ref
    && WellDated(out.date, out.precision)
    && (!d.action.LinkExisting? ==> out == d)
    && (d.action.LinkExisting? ==>
          && (out.action == d.action || out.action == CreateNew)
          && d.ref in b.items && out.location == b.items[d.ref].location
          && (out.date.Some? <==> b.items[d.ref].date.Some? && d.date == b.items[d.ref].date && d.evidence.Some?)
          && (out.date.Some? ==> out.date == d.date && out.evidence == d.evidence && out.evidence.Some?))
  }

  /** The answer after the pass: decision for decision, in order, each still well dated and for the same item. */
  lemma NormalizedShape(fold: Fold, rows: Rows, b: Batch, decisions: seq<Decision>, out: seq<Decision>)
    requires ValidBatch(rows, b, decisions) && Normalized(fold, rows, b, decisions, out)
    ensures forall i | 0 <= i < |out| :: Normalizes(b, decisions[i], out[i])
    ensures Writable(b.candidates, out)
  {
    forall i | 0 <= i < |out| ensures Normalizes(b, decisions[i], out[i]) && out[i].ref in b.candidates {
      assert ValidDecision(b, decisions[i]);
    }
  }

  /** No anchor that was known has changed. */
  predicate Extends(row: EventRow, after: EventRow) {
    Below(row.parts, after.parts) && (row.location.Some? ==> after.location == row.location)
  }

  ghost predicate AllExtend(rows: Rows, written: Rows) {
    written.Keys == rows.Keys && forall id | id in rows :: Extends(rows[id], written[id])
  }

  /** The row the second pass has written so far says no more than the anchors the first pass has accepted. */
  predicate Agrees(row: EventRow, a: Anchors) {
    Below(row.parts, a.parts) && row.location == a.location && NonZero(row.parts) && Truthy(a)
  }

  lemma AcceptedLinkIsWritten(fold: Fold, row: EventRow, a: Anchors, d: Decision, item: Item)
    requires WellDated(d.date, d.precision) && WellDated(item.date, item.precision) && TruthyItem(item)
    requires Agrees(row, a) && !AnchorsConflict(fold, a, item)
    ensures var linked := Linked(fold, row, Grounded(d, item));
            linked.Ok? && Agrees(linked.value, MergedAnchors(Some(a), item)) && Extends(row, linked.value)
  {
  }

  function AnchorsNow(rows: Rows, accepted: map<EventId, Anchors>, id: EventId): Anchors
    requires id in rows
  {
    if id in accepted then accepted[id] else AnchorsOf(rows[id])
  }

  /** Both passes after their first `k` decisions. */
  ghost predicate InStep(rows: Rows, accepted: map<EventId, Anchors>, written: Rows) {
    AllExtend(rows, written) && forall id | id in rows :: Agrees(written[id], AnchorsNow(rows, accepted, id))
  }

  lemma KeptLinkStaysInStep(fold: Fold, rows: Rows, accepted: map<EventId, Anchors>, written: Rows, id: EventId,
      d: Decision, item: Item)
    requires InStep(rows, accepted, written) && id in rows
    requires WellDated(d.date, d.precision) && WellDated(item.date, item.precision) && TruthyItem(item)
    requires !AnchorsConflict(fold, AnchorsNow(rows, accepted, id), item)
    ensures var linked := Linked(fold, written[id], Grounded(d, item));
            && linked.Ok?
            && InStep(rows, accepted[id := MergedAnchors(Some(AnchorsNow(rows, accepted, id)), item)],
                      written[id := linked.value])
  {
    var a := AnchorsNow(rows, accepted, id);
    assert Agrees(written[id], a) && Extends(rows[id], written[id]);
    AcceptedLinkIsWritten(fold, written[id], a, d, item);
    var after := written[id := Linked(fold, written[id], Grounded(d, item)).value];
    var accepted' := accepted[id := MergedAnchors(Some(a), item)];
    assert after.Keys == written.Keys;
    forall other | other in rows
      ensures Agrees(after[other], AnchorsNow(rows, accepted', other)) && Extends(rows[other], after[other])
    {
      if other != id {
        assert Agrees(written[other], AnchorsNow(rows, accepted, other)) && Extends(rows[other], written[other]);
      }
    }
  }

  lemma OneMoreInStep(fold: Fold, rows: Rows, b: Batch, accepted: map<EventId, Anchors>, d: Decision, out: Decision,
      written: Table)
    requires ValidInput(rows, b) && ValidDecision(b, d) && TruthyItems(rows, b) && InStep(rows, accepted, written.rows)
    requires out == NormalizedOne(fold, rows, b, accepted, d) && WellDated(out.date, out.precision)
    ensures var t := Staged(fold, b.candidates, written, out);
            t.Ok? && InStep(rows, AcceptedOne(fold, rows, b, accepted, d), t.value.rows)
  {
    if d.action.LinkExisting? && !Refused(fold, rows, b, accepted, d) {
      var id, item := d.action.event, b.items[d.ref];
      assert id in b.candidates[d.ref] && id in rows;
      assert Known(rows, b, accepted, d.ref, id) == Some(AnchorsNow(rows, accepted, id));
      KeptLinkStaysInStep(fold, rows, accepted, written.rows, id, d, item);
    }
  }

  /** The second pass is in step with the first, or has been refused for a date that cannot be. */
  ghost predicate OnlyChecksFail(rows: Rows, accepted: map<EventId, Anchors>, r: Result<Table, PersistError>) {
    match r
    case Ok(t) => InStep(rows, accepted, t.rows)
    case Err(e) => e == CheckViolation
  }

  lemma {:induction false} PassesStayInStep(fold: Fold, rows: Rows, b: Batch, decisions: seq<Decision>,
      out: seq<Decision>, reloads: set<nat>, k: nat)
    requires ValidBatch(rows, b, decisions) && k <= |decisions|
    requires TruthyRows(rows) && TruthyItems(rows, b)
    requires Normalized(fold, rows, b, decisions, out) && Writable(b.candidates, out)
    ensures OnlyChecksFail(rows, AcceptedUpTo(fold, rows, b, decisions, k),
                           PersistedUpTo(fold, b.candidates, rows, out, reloads, k))
  {
    if k > 0 {
      PassesStayInStep(fold, rows, b, decisions, out, reloads, k - 1);
      assert out[k - 1] in out;
      var before := PersistedUpTo(fold, b.candidates, rows, out, reloads, k - 1);
      if before.Ok? {
        OneMoreInStep(fold, rows, b, AcceptedUpTo(fold, rows, b, decisions, k - 1), decisions[k - 1], out[k - 1],
                      before.value);
      }
    }
  }

  // ---- The table's CHECK constraints ----

  /** The month and the day, as far as given, exist. */
  predicate Possible(date: Option<seq<nat>>) {
    date.Some? ==>
      && (|date.value| > 1 ==> 1 <= date.value[1] <= 12)
      && (|date.value| > 2 ==> 1 <= date.value[2] <= 31)
  }

  /** No month or day is zero, which merging would take for a missing one. */
  predicate NoZeroPart(date: Option<seq<nat>>) {
    date.Some? ==> (|date.value| > 1 ==> date.value[1] != 0) && (|date.value| > 2 ==> date.value[2] != 0)
  }

  /** The first `k` decisions write possible dates only. */
  predicate WritesPossible(decisions: seq<Decision>, k: nat)
    requires k <= |decisions|
  {
    forall i | 0 <= i < k :: decisions[i].action == Reject || Possible(decisions[i].date)
  }

  predicate LinksNoZeroPart(decisions: seq<Decision>) {
    forall i | 0 <= i < |decisions| :: decisions[i].action.LinkExisting? ==> NoZeroPart(decisions[i].date)
  }

  /** All that a row can fail is a month or a day out of range. */
  predicate Sound(row: EventRow) {
    Shaped(row.parts) && row.precision == PrecisionOf(row.parts)
  }

  predicate MonthAndDayNonZero(row: EventRow) {
    row.parts.month != Some(0) && row.parts.day != Some(0)
  }

  ghost predicate SoundTable(t: Table) {
    && (forall id | id in t.rows :: Sound(t.rows[id]) && MonthAndDayNonZero(t.rows[id]))
    && (forall row | row in t.created :: Sound(row))
  }

  /** A row passes after a link exactly when it passed before and the date written is possible. */
  lemma LinkedChecks(fold: Fold, row: EventRow, d: Decision)
    requires WellDated(d.date, d.precision) && Sound(row) && MonthAndDayNonZero(row)
    requires Linked(fold, row, d).Ok?
    ensures var after := Linked(fold, row, d).value;
            && Sound(after) && (CheckRow(after) <==> CheckRow(row) && Possible(d.date))
            && (NoZeroPart(d.date) ==> MonthAndDayNonZero(after))
  {
  }

  lemma NewEventChecks(d: Decision)
    requires WellDated(d.date, d.precision)
    ensures Sound(NewEvent(d)) && (CheckRow(NewEvent(d)) <==> Possible(d.date))
  {
  }

  /**
   One decision leaves a table that passes exactly when the table passed and the decision
   writes no impossible date.
   */
  lemma StagedChecks(fold: Fold, candidates: Candidates, t: Table, d: Decision)
    requires WellDated(d.date, d.precision) && d.ref in candidates && SoundTable(t)
    requires Staged(fold, candidates, t, d).Ok?
    ensures var after := Staged(fold, candidates, t, d).value;
            && (PassesChecks(after) <==> PassesChecks(t) && (d.action == Reject || Possible(d.date)))
            && ((d.action.LinkExisting? ==> NoZeroPart(d.date)) ==> SoundTable(after))
  {
    match d.action
    case Reject =>
    case CreateNew =>
      NewEventChecks(d);
      assert (t.created + [NewEvent(d)])[|t.created|] == NewEvent(d);
      assert forall row :: row in t.created + [NewEvent(d)] <==> row in t.created || row == NewEvent(d);
    case LinkExisting(id) =>
      LinkedChecks(fold, t.rows[id], d);
      var after := Staged(fold, candidates, t, d).value;
      assert after.created == t.created;
      assert forall other | other in t.rows && other != id :: after.rows[other] == t.rows[other];
      assert forall other :: other in after.rows <==> other in t.rows;
  }

  /** After `k` decisions: the rows pass, or the write has been refused for them, as the dates so far say. */
  ghost predicate ChecksTell(r: Result<Table, PersistError>, possible: bool) {
    match r
    case Ok(t) => SoundTable(t) && (PassesChecks(t) <==> possible)
    case Err(e) => e == CheckViolation ==> !possible
  }

  lemma OneMoreChecked(fold: Fold, candidates: Candidates, t: Table, d: Decision, reload: bool, possible: bool)
    requires WellDated(d.date, d.precision) && d.ref in candidates
    requires ChecksTell(Ok(t), possible) && (d.action.LinkExisting? ==> NoZeroPart(d.date))
    ensures ChecksTell(Resolved(fold, candidates, t, d, reload), possible && (d.action == Reject || Possible(d.date)))
  {
    if Staged(fold, candidates, t, d).Ok? {
      StagedChecks(fold, candidates, t, d);
    }
  }

  lemma {:induction false} UpToChecked(fold: Fold, candidates: Candidates, rows: Rows, decisions: seq<Decision>,
      reloads: set<nat>, k: nat)
    requires Writable(candidates, decisions) && k <= |decisions|
    requires LinksNoZeroPart(decisions) && forall id | id in rows :: CheckRow(rows[id])
    ensures ChecksTell(PersistedUpTo(fold, candidates, rows, decisions, reloads, k), WritesPossible(decisions, k))
  {
    if k > 0 {
      UpToChecked(fold, candidates, rows, decisions, reloads, k - 1);
      assert decisions[k - 1] in decisions;
      var before, d := PersistedUpTo(fold, candidates, rows, decisions, reloads, k - 1), decisions[k - 1];
      assert WritesPossible(decisions, k)
          <==> WritesPossible(decisions, k - 1) && (d.action == Reject || Possible(d.date));
      if before.Ok? {
        OneMoreChecked(fold, candidates, before.value, d, k - 1 in reloads, WritesPossible(decisions, k - 1));
      }
    }
  }

  /**
   Whenever the session flushes: an answer that is written writes possible dates
   only, and passes the constraints; and one whose dates are possible is never
   refused for them. Linked dates have no zero part.
   */
  lemma WrittenRowsPassChecks(fold: Fold, candidates: Candidates, rows: Rows, decisions: seq<Decision>,
      reloads: set<nat>)
    requires Writable(candidates, decisions)
    requires LinksNoZeroPart(decisions) && forall id | id in rows :: CheckRow(rows[id])
    ensures match Persisted(fold, candidates, rows, decisions, reloads)
            case Ok(t) => PassesChecks(t) && WritesPossible(decisions, |decisions|)
            case Err(e) => e == CheckViolation ==> !WritesPossible(decisions, |decisions|)
  {
    UpToChecked(fold, candidates, rows, decisions, reloads, |decisions|);
  }

  // ---- What the first pass leaves is written ----

  /** Over truthy items no link that is left carries a zero month or day. */
  lemma TruthyLinksHaveNoZeroPart(fold: Fold, rows: Rows, b: Batch, decisions: seq<Decision>, out: seq<Decision>)
    requires ValidBatch(rows, b, decisions) && TruthyItems(rows, b) && Normalized(fold, rows, b, decisions, out)
    ensures LinksNoZeroPart(out)
  {
    NormalizedShape(fold, rows, b, decisions, out);
    forall i | 0 <= i < |out| && out[i].action.LinkExisting?
      ensures NoZeroPart(out[i].date)
    {
      assert Normalizes(b, decisions[i], out[i]) && ValidDecision(b, decisions[i]);
      if out[i].date.Some? {
        assert TruthyItem(b.items[decisions[i].ref]);
      }
    }
  }

  /**
   After the first pass nothing can conflict, however many links reach the same
   Event and whenever the session flushes: the answer is written, changing no known
   anchor, if and only if it writes no impossible date.
   */
  lemma NormalizedLinksNeverConflict(fold: Fold, rows: Rows, b: Batch, decisions: seq<Decision>, out: seq<Decision>,
      reloads: set<nat>)
    requires ValidBatch(rows, b, decisions) && TruthyRows(rows) && TruthyItems(rows, b)
    requires forall id | id in rows :: CheckRow(rows[id])
    requires Normalized(fold, rows, b, decisions, out)
    ensures Writable(b.candidates, out)
    ensures match Persisted(fold, b.candidates, rows, out, reloads)
            case Ok(t) => WritesPossible(out, |out|) && PassesChecks(t) && AllExtend(rows, t.rows)
            case Err(e) => e == CheckViolation && !WritesPossible(out, |out|)
  {
    NormalizedShape(fold, rows, b, decisions, out);
    PassesStayInStep(fold, rows, b, decisions, out, reloads, |decisions|);
    TruthyLinksHaveNoZeroPart(fold, rows, b, decisions, out);
    WrittenRowsPassChecks(fold, b.candidates, rows, out, reloads);
  }

  // ---- A link is refused only for a contradiction ----

  /** What two items of one answer say about one Event cannot both be so. */
  predicate ItemsConflict(fold: Fold, x: Item, y: Item)
    requires WellDated(x.date, x.precision) && WellDated(y.date, y.precision)
  {
    AnchorsConflict(fold, Anchors(ItemParts(x), x.location), y)
  }

  /** Decision `j` is a link to `id` that the pass kept, and its item contradicts `y`. */
  ghost predicate Opposes(fold: Fold, rows: Rows, b: Batch, decisions: seq<Decision>, j: nat, id: EventId, y: Item)
    requires ValidBatch(rows, b, decisions) && j < |decisions| && WellDated(y.date, y.precision)
  {
    var d := decisions[j];
    && d.action == LinkExisting(id)
    && ValidDecision(b, d) && !Refused(fold, rows, b, AcceptedUpTo(fold, rows, b, decisions, j), d)
    && ItemsConflict(fold, b.items[d.ref], y)
  }

  lemma MergedConflicts(fold: Fold, a: Anchors, x: Item, y: Item)
    requires WellDated(x.date, x.precision) && WellDated(y.date, y.precision) && Truthy(a)
        && !AnchorsConflict(fold, a, x)
    ensures AnchorsConflict(fold, MergedAnchors(Some(a), x), y)
        <==> AnchorsConflict(fold, a, y) || ItemsConflict(fold, x, y)
  {
  }

  lemma {:induction false} AcceptedStaysTruthy(fold: Fold, rows: Rows, b: Batch, decisions: seq<Decision>, k: nat,
      id: EventId)
    requires ValidBatch(rows, b, decisions) && k <= |decisions| && TruthyRows(rows) && TruthyItems(rows, b)
        && id in rows
    ensures Truthy(AnchorsNow(rows, AcceptedUpTo(fold, rows, b, decisions, k), id))
  {
    if k > 0 {
      AcceptedStaysTruthy(fold, rows, b, decisions, k - 1, id);
      assert ValidDecision(b, decisions[k - 1]);
    }
  }

  /** One more decision adds its item to what is known of an Event exactly when it opposes through it. */
  lemma OneMoreRemembered(fold: Fold, rows: Rows, b: Batch, decisions: seq<Decision>, k: nat,
      id: EventId, y: Item)
    requires ValidBatch(rows, b, decisions) && k < |decisions| && TruthyRows(rows) && TruthyItems(rows, b)
    requires id in rows && WellDated(y.date, y.precision)
    ensures AnchorsConflict(fold, AnchorsNow(rows, AcceptedUpTo(fold, rows, b, decisions, k + 1), id), y)
       <==> || AnchorsConflict(fold, AnchorsNow(rows, AcceptedUpTo(fold, rows, b, decisions, k), id), y)
            || Opposes(fold, rows, b, decisions, k, id, y)
  {
    var accepted, d := AcceptedUpTo(fold, rows, b, decisions, k), decisions[k];
    assert ValidDecision(b, d);
    if d.action == LinkExisting(id) && !Refused(fold, rows, b, accepted, d) {
      var a := AnchorsNow(rows, accepted, id);
      assert Known(rows, b, accepted, d.ref, id) == Some(a);
      AcceptedStaysTruthy(fold, rows, b, decisions, k, id);
      MergedConflicts(fold, a, b.items[d.ref], y);
    }
  }

  ghost predicate Opposed(fold: Fold, rows: Rows, b: Batch, decisions: seq<Decision>, k: nat, id: EventId, y: Item)
    requires ValidBatch(rows, b, decisions) && k <= |decisions| && WellDated(y.date, y.precision)
  {
    exists j: nat | j < k :: Opposes(fold, rows, b, decisions, j, id, y)
  }

  lemma OpposedSplits(fold: Fold, rows: Rows, b: Batch, decisions: seq<Decision>, k: nat,
      id: EventId, y: Item)
    requires ValidBatch(rows, b, decisions) && k < |decisions| && WellDated(y.date, y.precision)
    ensures Opposed(fold, rows, b, decisions, k + 1, id, y)
       <==> Opposed(fold, rows, b, decisions, k, id, y) || Opposes(fold, rows, b, decisions, k, id, y)
  {
    if Opposed(fold, rows, b, decisions, k + 1, id, y) {
      var j: nat :| j < k + 1 && Opposes(fold, rows, b, decisions, j, id, y);
      assert j == k || j < k;
    }
  }

  /** After `k` decisions, what is known of an Event contradicts `y` just when its row or a kept link does. */
  ghost predicate Remembers(fold: Fold, rows: Rows, b: Batch, decisions: seq<Decision>, k: nat, id: EventId, y: Item)
    requires ValidBatch(rows, b, decisions) && k <= |decisions| && id in rows && WellDated(y.date, y.precision)
  {
    AnchorsConflict(fold, AnchorsNow(rows, AcceptedUpTo(fold, rows, b, decisions, k), id), y)
    <==> AnchorsConflict(fold, AnchorsOf(rows[id]), y) || Opposed(fold, rows, b, decisions, k, id, y)
  }

  lemma RemembersOneMore(fold: Fold, rows: Rows, b: Batch, decisions: seq<Decision>, k: nat,
      id: EventId, y: Item)
    requires ValidBatch(rows, b, decisions) && k < |decisions| && TruthyRows(rows) && TruthyItems(rows, b)
    requires id in rows && WellDated(y.date, y.precision) && Remembers(fold, rows, b, decisions, k, id, y)
    ensures Remembers(fold, rows, b, decisions, k + 1, id, y)
  {
    OneMoreRemembered(fold, rows, b, decisions, k, id, y);
    OpposedSplits(fold, rows, b, decisions, k, id, y);
  }

  lemma AcceptedRemembersKeptLinks(fold: Fold, rows: Rows, b: Batch, decisions: seq<Decision>, k: nat,
      id: EventId, y: Item)
    requires ValidBatch(rows, b, decisions) && k <= |decisions| && TruthyRows(rows) && TruthyItems(rows, b)
    requires id in rows && WellDated(y.date, y.precision)
    ensures Remembers(fold, rows, b, decisions, k, id, y)
  {
    for i := 0 to k
      invariant Remembers(fold, rows, b, decisions, i, id, y)
    {
      RemembersOneMore(fold, rows, b, decisions, i, id, y);
    }
  }

  /**
   A link becomes a new Event exactly when its item contradicts the Event as it was
   stored or an earlier link to it that was kept.
   */
  lemma RefusedOnlyForAContradiction(fold: Fold, rows: Rows, b: Batch, decisions: seq<Decision>,
      out: seq<Decision>, i: nat)
    requires ValidBatch(rows, b, decisions) && TruthyRows(rows) && TruthyItems(rows, b)
    requires Normalized(fold, rows, b, decisions, out) && i < |decisions| && decisions[i].action.LinkExisting?
    ensures out[i].action == CreateNew
       <==> || AnchorsConflict(fold, AnchorsOf(rows[decisions[i].action.event]), b.items[decisions[i].ref])
            || Opposed(fold, rows, b, decisions, i, decisions[i].action.event, b.items[decisions[i].ref])
    ensures out[i].action == CreateNew || out[i].action == decisions[i].action
  {
    assert ValidDecision(b, decisions[i]);
    var id, item := decisions[i].action.event, b.items[decisions[i].ref];
    AcceptedRemembersKeptLinks(fold, rows, b, decisions, i, id, item);
    assert out[i] == NormalizedOne(fold, rows, b, AcceptedUpTo(fold, rows, b, decisions, i), decisions[i]);
  }
}
