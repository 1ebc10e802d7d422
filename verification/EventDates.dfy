/**
 Partial Event dates: a year, perhaps a month, perhaps a day. Dates that agree on
 every part both know are ordered by how much they say, and filling in missing
 parts computes the least date that says everything.
 */
module EventDates {
  import opened Wrappers

  datatype Precision = Unknown | Year | Month | Day

  datatype Parts = Parts(year: Option<nat>, month: Option<nat>, day: Option<nat>)

  /** The columns of an Event row that its anchors live in. */
  datatype EventRow = EventRow(parts: Parts, precision: Precision, location: Option<string>)

  const NO_PARTS := Parts(None, None, None)

  function Rank(p: Precision): nat {
    match p
    case Unknown => 0
    case Year => 1
    case Month => 2
    case Day => 3
  }

  function PrecisionOf(p: Parts): Precision {
    if p.year.None? then Unknown else if p.month.None? then Year else if p.day.None? then Month else Day
  }

  predicate Shaped(p: Parts) {
    (p.month.Some? ==> p.year.Some?) && (p.day.Some? ==> p.month.Some?)
  }

  predicate InRange(p: Parts) {
    (p.month.Some? ==> 1 <= p.month.value <= 12) && (p.day.Some? ==> 1 <= p.day.value <= 31)
  }

  predicate Dated(p: Parts) {
    Shaped(p) && InRange(p)
  }

  /** The two CHECK constraints of the `events` table. */
  predicate CheckRow(row: EventRow) {
    Dated(row.parts) && row.precision == PrecisionOf(row.parts)
  }

  predicate PartConflicts(current: Option<nat>, incoming: Option<nat>) {
    current.Some? && incoming.Some? && current.value != incoming.value
  }

  predicate Conflicts(current: Parts, incoming: Parts) {
    || PartConflicts(current.year, incoming.year)
    || PartConflicts(current.month, incoming.month)
    || PartConflicts(current.day, incoming.day)
  }

  /** Python's `a or b` on an optional number: zero counts as missing. */
  function Or(a: Option<nat>, b: Option<nat>): Option<nat> {
    if a.Some? && a.value != 0 then a else b
  }

  function Filled(current: Parts, incoming: Parts): Parts {
    Parts(Or(current.year, incoming.year), Or(current.month, incoming.month), Or(current.day, incoming.day))
  }

  /** `enrich_event_date` on a row: nothing when it raises. */
  function Enriched(row: EventRow, incoming: Parts, precision: Precision): Option<EventRow> {
    if Conflicts(row.parts, incoming) then None
    else if incoming.year.None? then Some(row)
    else Some(row.(parts := Filled(row.parts, incoming),
                   precision := if Rank(precision) > Rank(row.precision) then precision else row.precision))
  }

  class Event {
    var year: Option<nat>
    var month: Option<nat>
    var day: Option<nat>
    var precision: Precision
    var location: Option<string>

    constructor (row: EventRow)
      ensures Row() == row
    {
      year, month, day := row.parts.year, row.parts.month, row.parts.day;
      precision, location := row.precision, row.location;
    }

    function Row(): EventRow
      reads this
    {
      EventRow(Parts(year, month, day), precision, location)
    }

    method EnrichDate(year: Option<nat>, month: Option<nat>, day: Option<nat>, precision: Precision)
      returns (raised: bool)
      modifies this`year, this`month, this`day, this`precision
      ensures raised <==> Enriched(old(Row()), Parts(year, month, day), precision).None?
      ensures Row() == if raised then old(Row()) else Enriched(old(Row()), Parts(year, month, day), precision).value
    {
      var incoming := [year, month, day];
      var current := [this.year, this.month, this.day];
      for k := 0 to 3
        invariant forall i | 0 <= i < k :: !PartConflicts(current[i], incoming[i])
        invariant Row() == old(Row())
      {
        if current[k].Some? && incoming[k].Some? && current[k] != incoming[k] {
          assert PartConflicts(current[k], incoming[k]);
          return true;
        }
      }
      assert !PartConflicts(current[0], incoming[0]) && !PartConflicts(current[1], incoming[1])
          && !PartConflicts(current[2], incoming[2]);
      if year.None? {
        return false;
      }
      this.year := Or(this.year, year);
      this.month := Or(this.month, month);
      this.day := Or(this.day, day);
      if Rank(precision) > Rank(this.precision) {
        this.precision := precision;
      }
      return false;
    }
  }

  // ---- The order of partial dates ----

  /** `q` says everything `p` says. */
  predicate Below(p: Parts, q: Parts) {
    && (p.year.Some? ==> q.year == p.year)
    && (p.month.Some? ==> q.month == p.month)
    && (p.day.Some? ==> q.day == p.day)
  }

  predicate UpperBound(u: Parts, p: Parts, dates: seq<Parts>) {
    Below(p, u) && forall d | d in dates :: Below(d, u)
  }

  ghost predicate IsJoin(u: Parts, p: Parts, dates: seq<Parts>) {
    UpperBound(u, p, dates) && forall v | UpperBound(v, p, dates) :: Below(u, v)
  }

  /** One Event enriched by the dates in turn: nothing once a call raises. */
  function EnrichedByAll(row: EventRow, dates: seq<Parts>): Option<EventRow> {
    if dates == [] then Some(row)
    else
      var before := EnrichedByAll(row, dates[..|dates| - 1]);
      var last := dates[|dates| - 1];
      if before.None? then None else Enriched(before.value, last, PrecisionOf(last))
  }

  /** One call keeps both constraints and yields the join, or raises because the two dates have none. */
  lemma EnrichedIsJoin(row: EventRow, d: Parts)
    requires CheckRow(row) && Dated(d)
    ensures match Enriched(row, d, PrecisionOf(d))
            case None => forall u :: !UpperBound(u, row.parts, [d])
            case Some(after) => CheckRow(after) && after.location == row.location && IsJoin(after.parts, row.parts, [d])
  {
    assert d in [d];
  }

  /** Any number of calls yield the join of all the dates, or raise exactly when no date says them all. */
  lemma {:induction false} EnrichedByAllIsJoin(row: EventRow, dates: seq<Parts>)
    requires CheckRow(row) && forall d | d in dates :: Dated(d)
    ensures match EnrichedByAll(row, dates)
            case None => forall u :: !UpperBound(u, row.parts, dates)
            case Some(after) =>
              CheckRow(after) && after.location == row.location && IsJoin(after.parts, row.parts, dates)
  {
    if dates != [] {
      var rest, last := dates[..|dates| - 1], dates[|dates| - 1];
      assert dates == rest + [last];
      EnrichedByAllIsJoin(row, rest);
      forall u ensures UpperBound(u, row.parts, dates) <==> UpperBound(u, row.parts, rest) && Below(last, u) {
        assert last in dates && forall d | d in rest :: d in dates;
      }
      var before := EnrichedByAll(row, rest);
      if before.Some? {
        EnrichedIsJoin(before.value, last);
        forall u | UpperBound(u, row.parts, dates) ensures UpperBound(u, before.value.parts, [last]) {}
      }
    }
  }

  /** The order of the calls, and repeated dates, do not matter: neither to the Event nor to whether a call raises. */
  lemma EnrichmentOrderDoesNotMatter(row: EventRow, dates: seq<Parts>, others: seq<Parts>)
    requires CheckRow(row) && forall d | d in dates :: Dated(d)
    requires forall d :: d in dates <==> d in others
    ensures EnrichedByAll(row, dates) == EnrichedByAll(row, others)
  {
    EnrichedByAllIsJoin(row, dates);
    EnrichedByAllIsJoin(row, others);
    forall u ensures UpperBound(u, row.parts, dates) <==> UpperBound(u, row.parts, others) {}
    var r, r' := EnrichedByAll(row, dates), EnrichedByAll(row, others);
    assert r.Some? ==> UpperBound(r.value.parts, row.parts, others);
    assert r'.Some? ==> UpperBound(r'.value.parts, row.parts, dates);
    assert r.Some? <==> r'.Some?;
    if r.Some? {
      assert Below(r.value.parts, r'.value.parts) && Below(r'.value.parts, r.value.parts);
    }
  }
}
