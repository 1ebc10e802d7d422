/**
 Linking the Events of one Article. A first pass grounds every proposed link in
 the Article Card and turns a link that would contradict the Event into a new
 Event; a second pass writes the links that are left. The first pass must leave
 nothing for the second to refuse.
 */
module EventAnchors {
  import opened Wrappers
  import opened EventDates

  datatype EventId = EventId(uuid: string)

  datatype Ref = Ref(name: string)

  /** A provisional Event of the Article Card; a date is its numbers, most significant first. */
  datatype Item = Item(date: Option<seq<nat>>, precision: Precision, location: Option<string>)

  datatype Action = LinkExisting(event: EventId) | CreateNew | Reject

  datatype Decision = Decision(
    ref: Ref,
    action: Action,
    date: Option<seq<nat>>,
    precision: Precision,
    evidence: Option<string>,
    location: Option<string>)

  datatype Anchors = Anchors(parts: Parts, location: Option<string>)

  /** What one resolution works on: the provisional Events by reference, and the candidates retrieved for each. */
  datatype Batch = Batch(items: map<Ref, Item>, candidates: Candidates)

  type Rows = map<EventId, EventRow>

  type Candidates = map<Ref, set<EventId>>

  type Fold = string -> string

  function DateParts(date: Option<seq<nat>>, precision: Precision): Parts
    requires date.Some? ==> date.value != []
  {
    if date.None? || precision == Unknown then NO_PARTS
    else
      var v := date.value;
      Parts(Some(v[0]), if |v| > 1 then Some(v[1]) else None, if |v| > 2 then Some(v[2]) else None)
  }

  /** What the answer contracts demand: as many numbers as the precision says, and no date without a precision. */
  predicate WellDated(date: Option<seq<nat>>, precision: Precision) {
    match date
    case None => precision == Unknown
    case Some(v) => precision != Unknown && |v| == Rank(precision)
  }

  /** What coverage and the answer contract leave of a decision. */
  predicate Answers(b: Batch, d: Decision) {
    && d.ref in b.items && d.ref in b.candidates
    && WellDated(d.date, d.precision)
    && (d.date.Some? ==> d.evidence.Some?)
  }

  predicate ValidDecision(b: Batch, d: Decision) {
    Answers(b, d) && (d.action.LinkExisting? ==> d.action.event in b.candidates[d.ref])
  }

  /** Every retrieved candidate is a row, and every item of the Article Card is well dated. */
  ghost predicate ValidInput(rows: Rows, b: Batch) {
    && (forall ref | ref in b.items :: WellDated(b.items[ref].date, b.items[ref].precision))
    && (forall ref, id | ref in b.candidates && id in b.candidates[ref] :: id in rows)
  }

  /** Coverage, the answer contract and the candidate filter have all passed. */
  ghost predicate ValidBatch(rows: Rows, b: Batch, decisions: seq<Decision>) {
    ValidInput(rows, b) && forall i | 0 <= i < |decisions| :: ValidDecision(b, decisions[i])
  }

  /** `normalize_invalid_event_links`: links outside the candidates become rejections, and nothing else changes. */
  method NormalizeInvalidEventLinks(b: Batch, output: seq<Decision>) returns (decisions: seq<Decision>)
    requires forall i | 0 <= i < |output| :: Answers(b, output[i])
    ensures |decisions| == |output|
    ensures forall i | 0 <= i < |output| ::
              if ValidDecision(b, output[i]) then decisions[i] == output[i]
              else decisions[i] == output[i].(action := Reject) && output[i].action.LinkExisting?
    ensures forall i | 0 <= i < |decisions| :: ValidDecision(b, decisions[i])
  {
    decisions := [];
    for k := 0 to |output|
      invariant |decisions| == k
      invariant forall i | 0 <= i < k ::
                  if ValidDecision(b, output[i]) then decisions[i] == output[i]
                  else decisions[i] == output[i].(action := Reject) && output[i].action.LinkExisting?
    {
      var d := output[k];
      if d.action.LinkExisting? && d.action.event !in b.candidates[d.ref] {
        decisions := decisions + [d.(action := Reject)];
        continue;
      }
      decisions := decisions + [d];
    }
  }

  function ItemParts(item: Item): Parts
    requires WellDated(item.date, item.precision)
  {
    DateParts(item.date, item.precision)
  }

  predicate LocationsConflict(fold: Fold, current: Option<string>, incoming: Option<string>) {
    current.Some? && incoming.Some? && fold(current.value) != fold(incoming.value)
  }

  predicate AnchorsConflict(fold: Fold, a: Anchors, item: Item)
    requires WellDated(item.date, item.precision)
  {
    Conflicts(a.parts, ItemParts(item)) || LocationsConflict(fold, a.location, item.location)
  }

  // ---- The normalising pass ----

  /** `_grounded_event_date`: the item's date when the decision repeats it with evidence. */
  function Grounded(d: Decision, item: Item): Decision {
    if item.date.Some? && d.date == item.date && d.evidence.Some?
    then d.(precision := item.precision, location := item.location)
    else d.(date := None, precision := Unknown, evidence := None, location := item.location)
  }

  function OrLocation(a: Option<string>, b: Option<string>): Option<string> {
    if a.Some? && a.value != "" then a else b
  }

  function MergedAnchors(a: Option<Anchors>, item: Item): Anchors
    requires WellDated(item.date, item.precision)
  {
    var current := if a.Some? then a.value else Anchors(NO_PARTS, None);
    Anchors(Filled(current.parts, ItemParts(item)), OrLocation(current.location, item.location))
  }

  function AnchorsOf(row: EventRow): Anchors {
    Anchors(row.parts, row.location)
  }

  /** The anchors a link is checked against: those accepted so far in this answer, or the candidate's own. */
  function Known(rows: Rows, b: Batch, accepted: map<EventId, Anchors>, ref: Ref, id: EventId): Option<Anchors>
    requires ref in b.candidates && forall c | c in b.candidates[ref] :: c in rows
  {
    if id in accepted then Some(accepted[id])
    else if id in b.candidates[ref] then Some(AnchorsOf(rows[id]))
    else None
  }

  /** The link would contradict what is known of its Event. */
  ghost predicate Refused(fold: Fold, rows: Rows, b: Batch, accepted: map<EventId, Anchors>, d: Decision)
    requires ValidInput(rows, b) && ValidDecision(b, d)
  {
    && d.action.LinkExisting?
    && var known := Known(rows, b, accepted, d.ref, d.action.event);
       known.Some? && AnchorsConflict(fold, known.value, b.items[d.ref])
  }

  ghost function NormalizedOne(fold: Fold, rows: Rows, b: Batch, accepted: map<EventId, Anchors>, d: Decision): Decision
    requires ValidInput(rows, b) && ValidDecision(b, d)
  {
    if !d.action.LinkExisting? then d
    else if Refused(fold, rows, b, accepted, d) then Grounded(d, b.items[d.ref]).(action := CreateNew)
    else Grounded(d, b.items[d.ref])
  }

  ghost function AcceptedOne(fold: Fold, rows: Rows, b: Batch, accepted: map<EventId, Anchors>, d: Decision)
    : map<EventId, Anchors>
    requires ValidInput(rows, b) && ValidDecision(b, d)
  {
    if !d.action.LinkExisting? || Refused(fold, rows, b, accepted, d) then accepted
    else accepted[d.action.event := MergedAnchors(Known(rows, b, accepted, d.ref, d.action.event), b.items[d.ref])]
  }

  ghost function AcceptedUpTo(fold: Fold, rows: Rows, b: Batch, decisions: seq<Decision>, k: nat): map<EventId, Anchors>
    requires ValidBatch(rows, b, decisions) && k <= |decisions|
  {
    if k == 0 then map[]
    else
      AcceptedOne(fold, rows, b, AcceptedUpTo(fold, rows, b, decisions, k - 1), decisions[k - 1])
  }

  /** `normalize_event_link_anchors`: each decision against what the ones before it have accepted. */
  ghost predicate Normalized(fold: Fold, rows: Rows, b: Batch, decisions: seq<Decision>, out: seq<Decision>)
    requires ValidBatch(rows, b, decisions)
  {
    && |out| == |decisions|
    && forall i {:trigger out[i]} | 0 <= i < |out| ::
         out[i] == NormalizedOne(fold, rows, b, AcceptedUpTo(fold, rows, b, decisions, i), decisions[i])
  }

  method NormalizeEventLinkAnchors(fold: Fold, rows: Rows, b: Batch, output: seq<Decision>)
    returns (decisions: seq<Decision>)
    requires ValidBatch(rows, b, output)
    ensures Normalized(fold, rows, b, output, decisions)
  {
    var accepted: map<EventId, Anchors> := map[];
    decisions := [];
    for k := 0 to |output|
      invariant accepted == AcceptedUpTo(fold, rows, b, output, k)
      invariant |decisions| == k
      invariant forall i {:trigger decisions[i]} | 0 <= i < k ::
                  decisions[i] == NormalizedOne(fold, rows, b, AcceptedUpTo(fold, rows, b, output, i), output[i])
    {
      var d := output[k];
      if !d.action.LinkExisting? {
        decisions := decisions + [d];
        continue;
      }
      var item := b.items[d.ref];
      var id := d.action.event;
      var anchors := Known(rows, b, accepted, d.ref, id);
      if anchors.Some? && AnchorsConflict(fold, anchors.value, item) {
        decisions := decisions + [Grounded(d, item).(action := CreateNew)];
        continue;
      }
      accepted := accepted[id := MergedAnchors(anchors, item)];
      decisions := decisions + [Grounded(d, item)];
    }
  }

  // ---- The persisting pass ----

  datatype PersistError = NotACandidate | CandidateDisappeared | DateConflict | LocationConflict | CheckViolation

  /** The Event table during the pass: the rows there before, and the Events the answer created, in order. */
  datatype Table = Table(rows: Rows, created: seq<EventRow>)

  /** What the database demands of the rows when they are flushed to it. */
  predicate PassesChecks(t: Table) {
    (forall id | id in t.rows :: CheckRow(t.rows[id])) && (forall row | row in t.created :: CheckRow(row))
  }

  /** The end of `_resolve_event` for a link to an existing Event. */
  function Linked(fold: Fold, row: EventRow, d: Decision): Result<EventRow, PersistError>
    requires WellDated(d.date, d.precision)
  {
    var dated := Enriched(row, DateParts(d.date, d.precision), d.precision);
    if dated.None? then Err(DateConflict)
    else if row.location.Some? && d.location.Some? then
      if fold(row.location.value) != fold(d.location.value) then Err(LocationConflict) else Ok(dated.value)
    else if row.location.None? then Ok(dated.value.(location := d.location))
    else Ok(dated.value)
  }

  function NewEvent(d: Decision): EventRow
    requires WellDated(d.date, d.precision)
  {
    EventRow(DateParts(d.date, d.precision), d.precision, d.location)
  }

  /** What one decision does to the rows in the session, before any of it reaches the database. */
  function Staged(fold: Fold, candidates: Candidates, t: Table, d: Decision): Result<Table, PersistError>
    requires WellDated(d.date, d.precision) && d.ref in candidates
  {
    match d.action
    case Reject => Ok(t)
    case CreateNew => Ok(t.(created := t.created + [NewEvent(d)]))
    case LinkExisting(id) =>
      if id !in candidates[d.ref] then Err(NotACandidate)
      else if id !in t.rows then Err(CandidateDisappeared)
      else
        var linked := Linked(fold, t.rows[id], d);
        if linked.Err? then Err(linked.error) else Ok(t.(rows := t.rows[id := linked.value]))
  }

  /** Which error a link raises: for its target first, then for its date, and for its location last. */
  lemma LinkErrors(fold: Fold, candidates: Candidates, t: Table, d: Decision, id: EventId)
    requires WellDated(d.date, d.precision) && d.ref in candidates && d.action == LinkExisting(id)
    ensures var r := Staged(fold, candidates, t, d);
            && (r == Err(NotACandidate) <==> id !in candidates[d.ref])
            && (id in candidates[d.ref] ==> (r == Err(CandidateDisappeared) <==> id !in t.rows))
            && (id in candidates[d.ref] && id in t.rows ==>
                  && (r == Err(DateConflict) <==> Conflicts(t.rows[id].parts, DateParts(d.date, d.precision)))
                  && (r == Err(LocationConflict)
                      <==> r != Err(DateConflict) && LocationsConflict(fold, t.rows[id].location, d.location))
                  && (r.Ok? <==> r != Err(DateConflict) && r != Err(LocationConflict)))
  {
  }

  /**
   One decision with its flushes: loading a candidate that the session no longer
   holds flushes the rows changed before it, and creating an Event flushes it.
   */
  function Resolved(fold: Fold, candidates: Candidates, t: Table, d: Decision, reload: bool)
    : Result<Table, PersistError>
    requires WellDated(d.date, d.precision) && d.ref in candidates
  {
    if d.action.LinkExisting? && d.action.event in candidates[d.ref] && reload && !PassesChecks(t) then
      Err(CheckViolation)
    else
      var staged := Staged(fold, candidates, t, d);
      if staged.Ok? && d.action.CreateNew? && !PassesChecks(staged.value) then Err(CheckViolation) else staged
  }

  /**
   Loading a candidate again refuses what has been changed before it; creating an Event
   refuses that and the new row.
   */
  lemma FlushesRefuse(fold: Fold, candidates: Candidates, t: Table, d: Decision, id: EventId)
    requires WellDated(d.date, d.precision) && d.ref in candidates
    ensures d.action == LinkExisting(id) && id in candidates[d.ref] ==>
              var r := Resolved(fold, candidates, t, d, true);
              if PassesChecks(t) then r == Staged(fold, candidates, t, d) else r == Err(CheckViolation)
    ensures d.action == CreateNew ==>
              var r := Resolved(fold, candidates, t, d, false);
              r == Err(CheckViolation) <==> !PassesChecks(t) || !CheckRow(NewEvent(d))
  {
    var created := t.created + [NewEvent(d)];
    assert created[|t.created|] == NewEvent(d);
    assert forall row :: row in created <==> row in t.created || row == NewEvent(d);
  }

  predicate Writable(candidates: Candidates, decisions: seq<Decision>) {
    forall d | d in decisions :: WellDated(d.date, d.precision) && d.ref in candidates
  }

  /** `reloads` are the decisions whose candidate has to be loaded again. */
  function PersistedUpTo(fold: Fold, candidates: Candidates, rows: Rows, decisions: seq<Decision>, reloads: set<nat>,
      k: nat)
    : Result<Table, PersistError>
    requires Writable(candidates, decisions) && k <= |decisions|
  {
    if k == 0 then Ok(Table(rows, []))
    else
      var before := PersistedUpTo(fold, candidates, rows, decisions, reloads, k - 1);
      if before.Err? then before
      else Resolved(fold, candidates, before.value, decisions[k - 1], k - 1 in reloads)
  }

  /** The whole pass: the decisions in order, and the flush of everything at the end. */
  function Persisted(fold: Fold, candidates: Candidates, rows: Rows, decisions: seq<Decision>, reloads: set<nat>)
    : Result<Table, PersistError>
    requires Writable(candidates, decisions)
  {
    var t := PersistedUpTo(fold, candidates, rows, decisions, reloads, |decisions|);
    if t.Ok? && !PassesChecks(t.value) then Err(CheckViolation) else t
  }

  class EventTable {
    var rows: Rows
    var created: seq<EventRow>

    constructor (rows: Rows)
      ensures this.rows == rows && created == []
    {
      this.rows, created := rows, [];
    }

    /** A flush to the database, which refuses rows that fail the CHECK constraints. */
    method Flush() returns (refused: bool)
      ensures refused <==> !PassesChecks(Table(rows, created))
    {
      refused := !PassesChecks(Table(rows, created));
    }

    method ResolveEvent(fold: Fold, candidates: Candidates, d: Decision, reload: bool)
      returns (error: Option<PersistError>)
      requires WellDated(d.date, d.precision) && d.ref in candidates
      modifies this
      ensures match Resolved(fold, candidates, old(Table(rows, created)), d, reload)
              case Ok(t) => error.None? && Table(rows, created) == t
              case Err(e) => error == Some(e)
    {
      var parts := DateParts(d.date, d.precision);
      match d.action
      case Reject => return None;
      case CreateNew =>
        created := created + [EventRow(parts, d.precision, d.location)];
        var refused := Flush();
        return if refused then Some(CheckViolation) else None;
      case LinkExisting(id) =>
        if id !in candidates[d.ref] { return Some(NotACandidate); }
        if reload {
          var refused := Flush();
          if refused { return Some(CheckViolation); }
        }
        if id !in rows { return Some(CandidateDisappeared); }
        var existing := new Event(rows[id]);
        var raised := existing.EnrichDate(parts.year, parts.month, parts.day, d.precision);
        if raised { return Some(DateConflict); }
        if existing.location.Some? && d.location.Some? {
          if fold(existing.location.value) != fold(d.location.value) { return Some(LocationConflict); }
        } else if existing.location.None? {
          existing.location := d.location;
        }
        rows := rows[id := existing.Row()];
        return None;
    }

    /** The loop of `_persist_events` and the flush behind it; on an error the transaction rolls the table back. */
    method PersistEvents(fold: Fold, candidates: Candidates, decisions: seq<Decision>, reloads: set<nat>)
      returns (error: Option<PersistError>)
      requires Writable(candidates, decisions)
      modifies this
      ensures match Persisted(fold, candidates, old(rows), decisions, reloads)
              case Ok(t) => error.None? && Table(rows, created) == t
              case Err(e) => error == Some(e) && Table(rows, created) == old(Table(rows, created))
    {
      var before := Table(rows, created);
      created := [];
      error := None;
      for k := 0 to |decisions|
        invariant error.None?
        invariant PersistedUpTo(fold, candidates, before.rows, decisions, reloads, k) == Ok(Table(rows, created))
      {
        error := ResolveEvent(fold, candidates, decisions[k], k in reloads);
        if error.Some? {
          rows, created := before.rows, before.created;
          ErrorsStick(fold, candidates, before.rows, decisions, reloads, k + 1, |decisions|);
          return;
        }
      }
      var refused := Flush();
      if refused {
        rows, created := before.rows, before.created;
        error := Some(CheckViolation);
      }
    }
  }

  lemma {:induction false} ErrorsStick(fold: Fold, candidates: Candidates, rows: Rows, decisions: seq<Decision>,
      reloads: set<nat>, j: nat, k: nat)
    requires Writable(candidates, decisions) && j <= k <= |decisions|
    requires PersistedUpTo(fold, candidates, rows, decisions, reloads, j).Err?
    ensures PersistedUpTo(fold, candidates, rows, decisions, reloads, k)
         == PersistedUpTo(fold, candidates, rows, decisions, reloads, j)
  {
    if j < k {
      ErrorsStick(fold, candidates, rows, decisions, reloads, j, k - 1);
    }
  }
}
