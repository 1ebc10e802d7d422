/** Exactly when the Events stored, and the items of an Article Card, are safe to link. */
module EventSafety {
  import opened Wrappers
  import opened EventDates
  import opened EventAnchors
  import opened EventWrites

  ghost predicate Folds(fold: Fold) {
    fold("") == "" && fold("x") == "x"
  }

  const PLAIN := Item(None, Unknown, None)
  const BLANK := EventRow(NO_PARTS, Unknown, None)

  const FIRST := Ref("event_1")
  const SECOND := Ref("event_2")
  const THIRD := Ref("event_3")

  /** An item that contradicts a known anchor which `or` takes for a missing one. */
  function Opponent(a: Anchors): (item: Item)
    ensures WellDated(item.date, item.precision) && TruthyItem(item) && Possible(item.date)
  {
    if a.location == Some("") then Item(None, Unknown, Some("x")) else Item(Some([7]), Year, None)
  }

  function LinkFor(ref: Ref, item: Item, id: EventId): Decision {
    Decision(ref, LinkExisting(id), item.date, item.precision,
             if item.date.Some? then Some("as written") else None, item.location)
  }

  /** An item without anchors makes the pass forget a falsy anchor, so that it lets a contradiction through. */
  lemma ForgottenAnchor(fold: Fold, row: EventRow, ref: Ref, id: EventId)
    requires Folds(fold) && (row.parts.year == Some(0) || row.location == Some(""))
    ensures var a := AnchorsOf(row);
            && !AnchorsConflict(fold, a, PLAIN)
            && !AnchorsConflict(fold, MergedAnchors(Some(a), PLAIN), Opponent(a))
            && Linked(fold, row, Grounded(LinkFor(ref, PLAIN, id), PLAIN)) == Ok(row)
            && Linked(fold, row, Grounded(LinkFor(ref, Opponent(a), id), Opponent(a))).Err?
  {
  }

  // ---- Stored Events ----

  /**
   Whenever the session flushes, no answer about these Events that is over items with
   truthy anchors and writes possible dates makes the second pass raise.
   */
  ghost predicate SafeRows(fold: Fold, rows: Rows) {
    forall b, decisions, out, reloads |
      && ValidBatch(rows, b, decisions) && TruthyItems(rows, b)
      && Normalized(fold, rows, b, decisions, out) && Writable(b.candidates, out) && WritesPossible(out, |out|) ::
      Persisted(fold, b.candidates, rows, out, reloads).Ok?
  }

  /** Two links to one Event: the first changes nothing, the second raises. */
  lemma SecondLinkFails(fold: Fold, candidates: Candidates, id: EventId, out: seq<Decision>, rows: Rows,
      reloads: set<nat>)
    requires |out| == 2 && Writable(candidates, out) && id in rows
    requires forall i | 0 <= i < 2 :: out[i].action == LinkExisting(id) && id in candidates[out[i].ref]
    requires Linked(fold, rows[id], out[0]) == Ok(rows[id]) && Linked(fold, rows[id], out[1]).Err?
    ensures Persisted(fold, candidates, rows, out, reloads).Err?
  {
    assert rows[id := rows[id]] == rows;
    var t := Table(rows, []);
    assert Staged(fold, candidates, t, out[0]) == Ok(t) && Staged(fold, candidates, t, out[1]).Err?;
    assert PersistedUpTo(fold, candidates, rows, out, reloads, 0) == Ok(t);
    var first := PersistedUpTo(fold, candidates, rows, out, reloads, 1);
    assert first == Resolved(fold, candidates, t, out[0], 0 in reloads);
    assert first.Ok? ==> first.value == t;
    assert PersistedUpTo(fold, candidates, rows, out, reloads, 2).Err?;
  }

  function Pair(y: Item, id: EventId): Batch {
    Batch(map[FIRST := PLAIN, SECOND := y], map[FIRST := {id}, SECOND := {id}])
  }

  function PairLinks(y: Item, id: EventId): seq<Decision> {
    [LinkFor(FIRST, PLAIN, id), LinkFor(SECOND, y, id)]
  }

  function PairOut(y: Item, id: EventId): seq<Decision> {
    [Grounded(LinkFor(FIRST, PLAIN, id), PLAIN), Grounded(LinkFor(SECOND, y, id), y)]
  }

  lemma PairIsKept(fold: Fold, rows: Rows, y: Item, id: EventId)
    requires id in rows && WellDated(y.date, y.precision) && TruthyItem(y)
    requires !AnchorsConflict(fold, AnchorsOf(rows[id]), PLAIN)
    requires !AnchorsConflict(fold, MergedAnchors(Some(AnchorsOf(rows[id])), PLAIN), y)
    ensures ValidBatch(rows, Pair(y, id), PairLinks(y, id)) && TruthyItems(rows, Pair(y, id))
    ensures Normalized(fold, rows, Pair(y, id), PairLinks(y, id), PairOut(y, id))
  {
    var b, decisions := Pair(y, id), PairLinks(y, id);
    assert ValidBatch(rows, b, decisions);
    assert AcceptedUpTo(fold, rows, b, decisions, 0) == map[];
    assert AcceptedUpTo(fold, rows, b, decisions, 1) == map[id := MergedAnchors(Some(AnchorsOf(rows[id])), PLAIN)];
  }

  lemma FalsyRowIsUnsafe(fold: Fold, rows: Rows, id: EventId)
    requires Folds(fold) && id in rows && (rows[id].parts.year == Some(0) || rows[id].location == Some(""))
    ensures !SafeRows(fold, rows)
  {
    var y := Opponent(AnchorsOf(rows[id]));
    ForgottenAnchor(fold, rows[id], FIRST, id);
    ForgottenAnchor(fold, rows[id], SECOND, id);
    PairIsKept(fold, rows, y, id);
    var reloads: set<nat> := {};
    SecondLinkFails(fold, Pair(y, id).candidates, id, PairOut(y, id), rows, reloads);
    assert Writable(Pair(y, id).candidates, PairOut(y, id)) && WritesPossible(PairOut(y, id), 2);
  }

  /** Stored Events are safe to link exactly when none has the year zero or an empty location. */
  lemma SafeRowsAreTruthy(fold: Fold, rows: Rows)
    requires Folds(fold) && forall id | id in rows :: CheckRow(rows[id])
    ensures SafeRows(fold, rows)
        <==> forall id | id in rows :: rows[id].parts.year != Some(0) && rows[id].location != Some("")
  {
    if TruthyRows(rows) {
      forall b, decisions, out, reloads |
        && ValidBatch(rows, b, decisions) && TruthyItems(rows, b)
        && Normalized(fold, rows, b, decisions, out) && Writable(b.candidates, out) && WritesPossible(out, |out|)
        ensures Persisted(fold, b.candidates, rows, out, reloads).Ok?
      {
        NormalizedLinksNeverConflict(fold, rows, b, decisions, out, reloads);
      }
    } else {
      var id :| id in rows && !Truthy(AnchorsOf(rows[id]));
      FalsyRowIsUnsafe(fold, rows, id);
    }
  }

  // ---- Items ----

  /** Every date written is possible, or is the date of `x`. */
  predicate WritesPossibleBut(out: seq<Decision>, x: Item) {
    forall i | 0 <= i < |out| :: out[i].action == Reject || Possible(out[i].date) || out[i].date == x.date
  }

  /**
   Whenever the session flushes, the item never makes the second pass raise in the
   company of Events and items with truthy anchors and of possible dates.
   */
  ghost predicate SafeItem(fold: Fold, x: Item)
    requires WellDated(x.date, x.precision)
  {
    forall rows, b, decisions, out, reloads |
      && ValidBatch(rows, b, decisions) && TruthyRows(rows) && (forall id | id in rows :: CheckRow(rows[id]))
      && (forall ref | ref in b.items :: b.items[ref] == x || TruthyItem(b.items[ref]))
      && Normalized(fold, rows, b, decisions, out) && Writable(b.candidates, out) && WritesPossibleBut(out, x) ::
      Persisted(fold, b.candidates, rows, out, reloads).Ok?
  }

  /** One answer that raises, in such company, shows that the item is not safe. */
  lemma UnsafeItem(fold: Fold, x: Item, rows: Rows, b: Batch, decisions: seq<Decision>, out: seq<Decision>,
      reloads: set<nat>)
    requires WellDated(x.date, x.precision)
    requires ValidBatch(rows, b, decisions) && TruthyRows(rows) && (forall id | id in rows :: CheckRow(rows[id]))
    requires forall ref | ref in b.items :: b.items[ref] == x || TruthyItem(b.items[ref])
    requires Normalized(fold, rows, b, decisions, out) && Writable(b.candidates, out) && WritesPossibleBut(out, x)
    requires Persisted(fold, b.candidates, rows, out, reloads).Err?
    ensures !SafeItem(fold, x)
  {
  }

  /** Linked to an Event that knows nothing, an item's anchors become the Event's. */
  lemma FirstLinkIsTaken(fold: Fold, ref: Ref, id: EventId, x: Item)
    requires WellDated(x.date, x.precision)
    ensures Linked(fold, BLANK, Grounded(LinkFor(ref, x, id), x)) == Ok(EventRow(ItemParts(x), x.precision, x.location))
    ensures !AnchorsConflict(fold, AnchorsOf(BLANK), x)
    ensures MergedAnchors(Some(AnchorsOf(BLANK)), x) == Anchors(ItemParts(x), x.location)
  {
  }

  /** Three links to one Event: the first is taken, the second changes nothing, the third raises. */
  lemma ThirdLinkFails(fold: Fold, candidates: Candidates, id: EventId, out: seq<Decision>, rows: Rows, row: EventRow)
    requires |out| == 3 && Writable(candidates, out) && id in rows
    requires forall i | 0 <= i < 3 :: out[i].action == LinkExisting(id) && id in candidates[out[i].ref]
    requires Linked(fold, rows[id], out[0]) == Ok(row)
    requires Linked(fold, row, out[1]) == Ok(row)
    requires Linked(fold, row, out[2]).Err?
    ensures Persisted(fold, candidates, rows, out, {}).Err?
  {
    var t, never: set<nat> := Table(rows[id := row], []), {};
    assert t.rows[id := row] == t.rows;
    assert PersistedUpTo(fold, candidates, rows, out, never, 0) == Ok(Table(rows, []));
    assert PersistedUpTo(fold, candidates, rows, out, never, 1) == Ok(t);
    assert PersistedUpTo(fold, candidates, rows, out, never, 2) == Ok(t);
    assert PersistedUpTo(fold, candidates, rows, out, never, 3).Err?;
  }

  /** Three items with the same only candidate: `x`, one without anchors, and `y`. */
  function Trio(x: Item, y: Item, id: EventId): Batch {
    Batch(map[FIRST := x, SECOND := PLAIN, THIRD := y], map[FIRST := {id}, SECOND := {id}, THIRD := {id}])
  }

  function TrioLinks(x: Item, y: Item, id: EventId): seq<Decision> {
    [LinkFor(FIRST, x, id), LinkFor(SECOND, PLAIN, id), LinkFor(THIRD, y, id)]
  }

  function TrioOut(x: Item, y: Item, id: EventId): seq<Decision> {
    [Grounded(LinkFor(FIRST, x, id), x), Grounded(LinkFor(SECOND, PLAIN, id), PLAIN),
        Grounded(LinkFor(THIRD, y, id), y)]
  }

  lemma TrioIsKept(fold: Fold, x: Item, y: Item, id: EventId)
    requires WellDated(x.date, x.precision) && WellDated(y.date, y.precision)
    requires var a := Anchors(ItemParts(x), x.location);
             !AnchorsConflict(fold, a, PLAIN) && !AnchorsConflict(fold, MergedAnchors(Some(a), PLAIN), y)
    ensures ValidBatch(map[id := BLANK], Trio(x, y, id), TrioLinks(x, y, id))
    ensures Normalized(fold, map[id := BLANK], Trio(x, y, id), TrioLinks(x, y, id), TrioOut(x, y, id))
  {
    var rows: Rows := map[id := BLANK];
    var b, decisions, out := Trio(x, y, id), TrioLinks(x, y, id), TrioOut(x, y, id);
    var a := Anchors(ItemParts(x), x.location);
    FirstLinkIsTaken(fold, FIRST, id, x);
    assert ValidBatch(rows, b, decisions);
    assert AcceptedUpTo(fold, rows, b, decisions, 0) == map[];
    assert AcceptedUpTo(fold, rows, b, decisions, 1) == map[id := a];
    assert AcceptedUpTo(fold, rows, b, decisions, 2) == map[id := MergedAnchors(Some(a), PLAIN)];
    assert out[0] == NormalizedOne(fold, rows, b, map[], decisions[0]);
    assert out[1] == NormalizedOne(fold, rows, b, map[id := a], decisions[1]);
    assert out[2] == NormalizedOne(fold, rows, b, map[id := MergedAnchors(Some(a), PLAIN)], decisions[2]);
  }

  lemma TrioWrites(x: Item, y: Item, id: EventId)
    requires WellDated(x.date, x.precision) && WellDated(y.date, y.precision) && Possible(y.date)
    ensures Writable(Trio(x, y, id).candidates, TrioOut(x, y, id)) && WritesPossibleBut(TrioOut(x, y, id), x)
  {
  }

  /** Over the Event that knows nothing, `x` is taken and forgotten, and its opponent raises. */
  lemma TrioRaises(fold: Fold, x: Item, y: Item, id: EventId)
    requires Folds(fold) && WellDated(x.date, x.precision) && Possible(x.date) && !TruthyItem(x)
    requires y == Opponent(Anchors(ItemParts(x), x.location))
    ensures Writable(Trio(x, y, id).candidates, TrioOut(x, y, id))
    ensures Persisted(fold, Trio(x, y, id).candidates, map[id := BLANK], TrioOut(x, y, id), {}).Err?
  {
    var row := EventRow(ItemParts(x), x.precision, x.location);
    TrioWrites(x, y, id);
    FirstLinkIsTaken(fold, FIRST, id, x);
    ForgottenAnchor(fold, row, SECOND, id);
    ForgottenAnchor(fold, row, THIRD, id);
    ThirdLinkFails(fold, Trio(x, y, id).candidates, id, TrioOut(x, y, id), map[id := BLANK], row);
  }

  lemma FalsyItemIsUnsafe(fold: Fold, x: Item)
    requires Folds(fold) && WellDated(x.date, x.precision) && Possible(x.date) && !TruthyItem(x)
    ensures !SafeItem(fold, x)
  {
    var id, row := EventId("event"), EventRow(ItemParts(x), x.precision, x.location);
    var y := Opponent(AnchorsOf(row));
    var rows: Rows := map[id := BLANK];
    ForgottenAnchor(fold, row, SECOND, id);
    TrioIsKept(fold, x, y, id);
    TrioWrites(x, y, id);
    TrioRaises(fold, x, y, id);
    UnsafeItem(fold, x, rows, Trio(x, y, id), TrioLinks(x, y, id), TrioOut(x, y, id), {});
  }

  function Single(x: Item, id: EventId): Batch {
    Batch(map[FIRST := x], map[FIRST := {id}])
  }

  /** Linked alone to an Event that knows nothing, an impossible date is refused when it is flushed. */
  lemma ImpossibleItemIsUnsafe(fold: Fold, x: Item)
    requires WellDated(x.date, x.precision) && !Possible(x.date)
    ensures !SafeItem(fold, x)
  {
    var id := EventId("event");
    var rows: Rows := map[id := BLANK];
    var b, decisions, out := Single(x, id), [LinkFor(FIRST, x, id)], [Grounded(LinkFor(FIRST, x, id), x)];
    FirstLinkIsTaken(fold, FIRST, id, x);
    assert ValidBatch(rows, b, decisions) && TruthyRows(rows);
    assert AcceptedUpTo(fold, rows, b, decisions, 0) == map[];
    assert Normalized(fold, rows, b, decisions, out);
    assert Writable(b.candidates, out) && WritesPossibleBut(out, x);
    var t, never: set<nat> := Table(map[id := EventRow(ItemParts(x), x.precision, x.location)], []), {};
    assert PersistedUpTo(fold, b.candidates, rows, out, never, 0) == Ok(Table(rows, []));
    assert rows[id := t.rows[id]] == t.rows;
    assert PersistedUpTo(fold, b.candidates, rows, out, never, 1) == Ok(t);
    assert id in t.rows && !CheckRow(t.rows[id]);
    UnsafeItem(fold, x, rows, b, decisions, out, never);
  }

  /** An item is safe exactly when its month and day exist, its year is not zero, and its location is not empty. */
  lemma SafeItemsAreTruthy(fold: Fold, x: Item)
    requires Folds(fold) && WellDated(x.date, x.precision)
    ensures SafeItem(fold, x)
       <==> Possible(x.date) && (x.date.Some? ==> x.date.value[0] != 0) && x.location != Some("")
  {
    if !Possible(x.date) {
      ImpossibleItemIsUnsafe(fold, x);
    } else if !TruthyItem(x) {
      FalsyItemIsUnsafe(fold, x);
    } else {
      forall rows, b, decisions, out, reloads |
        && ValidBatch(rows, b, decisions) && TruthyRows(rows) && (forall id | id in rows :: CheckRow(rows[id]))
        && (forall ref | ref in b.items :: b.items[ref] == x || TruthyItem(b.items[ref]))
        && Normalized(fold, rows, b, decisions, out) && Writable(b.candidates, out) && WritesPossibleBut(out, x)
        ensures Persisted(fold, b.candidates, rows, out, reloads).Ok?
      {
        assert WritesPossible(out, |out|);
        NormalizedLinksNeverConflict(fold, rows, b, decisions, out, reloads);
      }
    }
  }

  /**
   The thirteenth month, which the answer contracts accept: linking it is unsafe, and creating
   it is always refused.
   */
  lemma MonthThirteenIsRefused(fold: Fold, rows: Rows, candidates: Candidates, d: Decision, reloads: set<nat>)
    requires d.action == CreateNew && d.date == Some([2024, 13]) && d.precision == Month && d.ref in candidates
    requires forall id | id in rows :: CheckRow(rows[id])
    ensures !SafeItem(fold, Item(Some([2024, 13]), Month, None))
    ensures Writable(candidates, [d]) && Persisted(fold, candidates, rows, [d], reloads) == Err(CheckViolation)
  {
    ImpossibleItemIsUnsafe(fold, Item(Some([2024, 13]), Month, None));
    var t := Table(rows, [NewEvent(d)]);
    assert PersistedUpTo(fold, candidates, rows, [d], reloads, 0) == Ok(Table(rows, []));
    assert [] + [NewEvent(d)] == [NewEvent(d)];
    assert Staged(fold, candidates, Table(rows, []), d) == Ok(t);
    assert NewEvent(d) in t.created && !CheckRow(NewEvent(d));
    assert PersistedUpTo(fold, candidates, rows, [d], reloads, 1) == Err(CheckViolation);
  }

  // ---- A zero month ----

  const APART := Ref("event_4")

  function Dated2024(month: nat): Item {
    Item(Some([2024, month]), Month, None)
  }

  const DATED := Item(Some([2024]), Year, None)

  function In2024(month: Option<nat>): EventRow {
    EventRow(Parts(Some(2024), month, None), Month, None)
  }

  /** Three items with the same only candidate, and one without any. */
  function ZeroBatch(id: EventId): Batch {
    Batch(map[FIRST := Dated2024(0), SECOND := DATED, THIRD := Dated2024(5), APART := PLAIN],
          map[FIRST := {id}, SECOND := {id}, THIRD := {id}, APART := {}])
  }

  const CREATION := Decision(APART, CreateNew, None, Unknown, None, None)

  function CreationLast(id: EventId): seq<Decision> {
    [LinkFor(FIRST, Dated2024(0), id), LinkFor(SECOND, DATED, id), LinkFor(THIRD, Dated2024(5), id), CREATION]
  }

  function CreationSecond(id: EventId): seq<Decision> {
    [LinkFor(FIRST, Dated2024(0), id), CREATION, LinkFor(SECOND, DATED, id), LinkFor(THIRD, Dated2024(5), id)]
  }

  /** The zero is forgotten by the second link, so that the third one contradicts nothing. */
  lemma ZeroIsForgotten(fold: Fold, id: EventId)
    ensures Linked(fold, BLANK, LinkFor(FIRST, Dated2024(0), id)) == Ok(In2024(Some(0)))
    ensures Linked(fold, In2024(Some(0)), LinkFor(SECOND, DATED, id)) == Ok(In2024(None))
    ensures Linked(fold, In2024(None), LinkFor(THIRD, Dated2024(5), id)) == Ok(In2024(Some(5)))
    ensures MergedAnchors(Some(AnchorsOf(BLANK)), Dated2024(0)) == AnchorsOf(In2024(Some(0)))
    ensures MergedAnchors(Some(AnchorsOf(In2024(Some(0)))), DATED) == AnchorsOf(In2024(None))
    ensures !AnchorsConflict(fold, AnchorsOf(BLANK), Dated2024(0))
    ensures !AnchorsConflict(fold, AnchorsOf(In2024(Some(0))), DATED)
    ensures !AnchorsConflict(fold, AnchorsOf(In2024(None)), Dated2024(5))
  {
  }

  /** An answer that the first pass leaves as it is. */
  ghost predicate IsNormal(fold: Fold, rows: Rows, b: Batch, decisions: seq<Decision>) {
    && ValidBatch(rows, b, decisions) && Normalized(fold, rows, b, decisions, decisions)
    && Writable(b.candidates, decisions)
  }

  lemma CreationLastIsNormal(fold: Fold, id: EventId)
    ensures IsNormal(fold, map[id := BLANK], ZeroBatch(id), CreationLast(id))
  {
    var rows: Rows, b, ds := map[id := BLANK], ZeroBatch(id), CreationLast(id);
    ZeroIsForgotten(fold, id);
    assert ValidBatch(rows, b, ds);
    assert AcceptedUpTo(fold, rows, b, ds, 0) == map[];
    assert AcceptedUpTo(fold, rows, b, ds, 1) == map[id := AnchorsOf(In2024(Some(0)))];
    assert AcceptedUpTo(fold, rows, b, ds, 2) == map[id := AnchorsOf(In2024(None))];
  }

  lemma CreationSecondIsNormal(fold: Fold, id: EventId)
    ensures IsNormal(fold, map[id := BLANK], ZeroBatch(id), CreationSecond(id))
  {
    var rows: Rows, b, ds := map[id := BLANK], ZeroBatch(id), CreationSecond(id);
    ZeroIsForgotten(fold, id);
    assert ValidBatch(rows, b, ds);
    assert AcceptedUpTo(fold, rows, b, ds, 0) == map[];
    assert AcceptedUpTo(fold, rows, b, ds, 1) == map[id := AnchorsOf(In2024(Some(0)))];
    assert AcceptedUpTo(fold, rows, b, ds, 2) == map[id := AnchorsOf(In2024(Some(0)))];
    assert AcceptedUpTo(fold, rows, b, ds, 3) == map[id := AnchorsOf(In2024(None))];
  }

  lemma LinkStaged(fold: Fold, t: Table, id: EventId, d: Decision, before: EventRow, after: EventRow)
    requires t.rows == map[id := before] && d.action == LinkExisting(id) && WellDated(d.date, d.precision)
    requires d.ref in {FIRST, SECOND, THIRD} && Linked(fold, before, d) == Ok(after)
    ensures Resolved(fold, ZeroBatch(id).candidates, t, d, false) == Ok(Table(map[id := after], t.created))
  {
    assert t.rows[id := after] == map[id := after];
  }

  lemma CreationChecked(fold: Fold, id: EventId, month: nat)
    ensures Resolved(fold, ZeroBatch(id).candidates, Table(map[id := In2024(Some(month))], []), CREATION, false)
         == if 1 <= month <= 12 then Ok(Table(map[id := In2024(Some(month))], [BLANK])) else Err(CheckViolation)
  {
    var t := Table(map[id := In2024(Some(month))], [BLANK]);
    assert NewEvent(CREATION) == BLANK && [] + [BLANK] == [BLANK];
    assert id in t.rows && (PassesChecks(t) <==> CheckRow(In2024(Some(month))));
  }

  lemma CreationLastIsWritten(fold: Fold, id: EventId)
    requires Writable(ZeroBatch(id).candidates, CreationLast(id))
    ensures Persisted(fold, ZeroBatch(id).candidates, map[id := BLANK], CreationLast(id), {})
         == Ok(Table(map[id := In2024(Some(5))], [BLANK]))
  {
    var rows: Rows, candidates, ds, never: set<nat> := map[id := BLANK], ZeroBatch(id).candidates, CreationLast(id), {};
    ZeroIsForgotten(fold, id);
    LinkStaged(fold, Table(rows, []), id, ds[0], BLANK, In2024(Some(0)));
    LinkStaged(fold, Table(map[id := In2024(Some(0))], []), id, ds[1], In2024(Some(0)), In2024(None));
    LinkStaged(fold, Table(map[id := In2024(None)], []), id, ds[2], In2024(None), In2024(Some(5)));
    CreationChecked(fold, id, 5);
    assert PersistedUpTo(fold, candidates, rows, ds, never, 1) == Ok(Table(map[id := In2024(Some(0))], []));
    assert PersistedUpTo(fold, candidates, rows, ds, never, 2) == Ok(Table(map[id := In2024(None)], []));
    assert PersistedUpTo(fold, candidates, rows, ds, never, 3) == Ok(Table(map[id := In2024(Some(5))], []));
    assert PersistedUpTo(fold, candidates, rows, ds, never, 4) == Ok(Table(map[id := In2024(Some(5))], [BLANK]));
  }

  lemma CreationSecondIsRefused(fold: Fold, id: EventId)
    requires Writable(ZeroBatch(id).candidates, CreationSecond(id))
    ensures Persisted(fold, ZeroBatch(id).candidates, map[id := BLANK], CreationSecond(id), {}) == Err(CheckViolation)
  {
    var rows: Rows, candidates, ds, never: set<nat> :=
        map[id := BLANK], ZeroBatch(id).candidates, CreationSecond(id), {};
    ZeroIsForgotten(fold, id);
    LinkStaged(fold, Table(rows, []), id, ds[0], BLANK, In2024(Some(0)));
    CreationChecked(fold, id, 0);
    assert PersistedUpTo(fold, candidates, rows, ds, never, 1) == Ok(Table(map[id := In2024(Some(0))], []));
    assert PersistedUpTo(fold, candidates, rows, ds, never, 2) == Err(CheckViolation);
    assert PersistedUpTo(fold, candidates, rows, ds, never, 3) == Err(CheckViolation);
  }

  /**
   A zero month is the exception: whether it is refused depends on when the session
   flushes. Of two orders of the same four decisions, none of which loads the Event
   again, one is written and the other is refused because creating an Event flushes.
   */
  lemma ZeroMonthMaySlipThrough(fold: Fold, id: EventId)
    ensures multiset(CreationLast(id)) == multiset(CreationSecond(id))
    ensures IsNormal(fold, map[id := BLANK], ZeroBatch(id), CreationLast(id))
    ensures IsNormal(fold, map[id := BLANK], ZeroBatch(id), CreationSecond(id))
    ensures Persisted(fold, ZeroBatch(id).candidates, map[id := BLANK], CreationLast(id), {})
         == Ok(Table(map[id := In2024(Some(5))], [BLANK]))
    ensures Persisted(fold, ZeroBatch(id).candidates, map[id := BLANK], CreationSecond(id), {}) == Err(CheckViolation)
  {
    CreationLastIsNormal(fold, id);
    CreationSecondIsNormal(fold, id);
    CreationLastIsWritten(fold, id);
    CreationSecondIsRefused(fold, id);
  }
}
