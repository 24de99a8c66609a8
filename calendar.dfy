/** The events store of boomtime/calendar.py: the `Event` record, the `events`
    table, and the add / query / delete / partial-update rules of `Calendar`.

    The SQLite table is a map from row id to row. Rows are read back in row-id
    order (the order of a full scan of a rowid table, since the query has no
    ORDER BY), and a new row gets the id one larger than the largest id in the
    table, as SQLite does for an `INTEGER PRIMARY KEY` without AUTOINCREMENT. */
module Calendar {
  import opened Wrappers

  /** An offset-naive timestamp understood as UTC, counted in a fixed unit.
      The table stores `datetime`s as ISO text, whose order is the order of
      the instants, so comparisons in SQL and in Python agree with `<=` here. */
  type Timestamp = int

  /** One row of the `events` table (the `Event` namedtuple). */
  datatype Event = Event(
    id: int,
    title: Option<string>,
    description: Option<string>,
    allDay: bool,
    start: Timestamp,
    end: Timestamp)

  /** The two reasons for which `Calendar` raises `CalendarError`. */
  datatype CalendarError =
    | StartAfterEnd     // "start cannot be later than end"
    | UnpairedStartEnd  // "both start and end must be given"

  /** The SET list of the UPDATE statement built by `update_event`: one entry per
      column to overwrite. The id column is always in the list, assigned to
      itself, so the statement is well formed even when nothing else is given;
      it needs no entry here. */
  datatype Assignments = Assignments(
    title: Option<string>,
    start: Option<Timestamp>,
    end: Option<Timestamp>,
    description: Option<string>,
    allDay: Option<bool>)

  /** Every row is stored under its own id. */
  predicate Keyed(m: map<int, Event>) {
    forall id :: id in m ==> m[id].id == id
  }

  /** The table invariant: rows are keyed by their id, ids lie in [1, bound),
      and no row starts after it ends. */
  predicate WellFormed(m: map<int, Event>, bound: int) {
    && 1 <= bound
    && Keyed(m)
    && forall id :: id in m ==> 1 <= id < bound && m[id].start <= m[id].end
  }

  /** The WHERE clause of `get_events`, as written: the event contains the
      query window, or its start or its end lies inside it (`BETWEEN` is
      inclusive at both ends; AND binds tighter than OR). */
  predicate Matches(ev: Event, qStart: Timestamp, qEnd: Timestamp) {
    || (ev.start < qStart && ev.end > qEnd)
    || qStart <= ev.start <= qEnd
    || qStart <= ev.end <= qEnd
  }

  /** For a well-formed event and window the three-way clause is exactly the
      closed-interval overlap test. */
  lemma MatchesIsClosedOverlap(ev: Event, qStart: Timestamp, qEnd: Timestamp)
    requires ev.start <= ev.end && qStart <= qEnd
    ensures Matches(ev, qStart, qEnd) <==> ev.start <= qEnd && ev.end >= qStart
  {
  }

  /** Boundaries count: an event that ends exactly where the window starts, or
      starts exactly where it ends, is returned. */
  lemma TouchingEventsMatch(ev: Event, qStart: Timestamp, qEnd: Timestamp)
    requires ev.start <= ev.end && qStart <= qEnd
    ensures ev.end == qStart ==> Matches(ev, qStart, qEnd)
    ensures ev.start == qEnd ==> Matches(ev, qStart, qEnd)
  {
  }

  /** The clause returns more than a half-open overlap test would: exactly the
      events that overlap the window on a stretch of positive length, plus
      those that merely touch it at one end. */
  lemma MatchesIsHalfOpenOverlapOrTouch(ev: Event, qStart: Timestamp, qEnd: Timestamp)
    requires ev.start <= ev.end && qStart <= qEnd
    ensures Matches(ev, qStart, qEnd) <==>
      (ev.start < qEnd && ev.end > qStart) || ev.end == qStart || ev.start == qEnd
  {
  }

  /** The largest id below `hi` in the table, or 0 when there is none. */
  function LargestId(m: map<int, Event>, hi: int): (r: int)
    requires 1 <= hi
    ensures 0 <= r < hi
    ensures r == 0 || r in m
    ensures forall id :: r < id < hi ==> id !in m
    decreases hi
  {
    if hi == 1 then 0
    else if hi - 1 in m then hi - 1
    else LargestId(m, hi - 1)
  }

  /** The id SQLite gives the next inserted row: one larger than the largest id
      in the table (1 for an empty table). It is never already in use. */
  function NextRowId(m: map<int, Event>, bound: int): (id: int)
    requires WellFormed(m, bound)
    ensures 1 <= id <= bound
    ensures id !in m
    ensures forall k :: k in m ==> k < id
    ensures id == 1 || id - 1 in m
  {
    LargestId(m, bound) + 1
  }

  /** Row ids strictly increase along the sequence (so no row appears twice). */
  predicate IdsAscending(r: seq<Event>) {
    forall i, j :: 0 <= i < j < |r| ==> r[i].id < r[j].id
  }

  /** The rows with ids in [lo, hi) that satisfy the WHERE clause of
      `get_events`, in ascending id order: a scan of the table. */
  function Select(m: map<int, Event>, qStart: Timestamp, qEnd: Timestamp, lo: int, hi: int): seq<Event>
    decreases hi - lo
  {
    if lo >= hi then []
    else
      var rest := Select(m, qStart, qEnd, lo + 1, hi);
      if lo in m && Matches(m[lo], qStart, qEnd) then [m[lo]] + rest else rest
  }

  /** The scan returns exactly the stored rows with ids in [lo, hi) that
      satisfy the WHERE clause, each once, in ascending id order. */
  lemma {:induction false} SelectExactly(m: map<int, Event>, qStart: Timestamp, qEnd: Timestamp, lo: int, hi: int)
    requires Keyed(m)
    ensures forall e :: e in Select(m, qStart, qEnd, lo, hi) ==>
      lo <= e.id < hi && e.id in m && m[e.id] == e && Matches(e, qStart, qEnd)
    ensures IdsAscending(Select(m, qStart, qEnd, lo, hi))
    ensures forall id :: lo <= id < hi && id in m && Matches(m[id], qStart, qEnd) ==>
      m[id] in Select(m, qStart, qEnd, lo, hi)
    decreases hi - lo
  {
    if lo < hi {
      SelectExactly(m, qStart, qEnd, lo + 1, hi);
      var rest := Select(m, qStart, qEnd, lo + 1, hi);
      if lo in m && Matches(m[lo], qStart, qEnd) {
        var r := [m[lo]] + rest;
        assert r[0].id == lo;
        assert forall i :: 1 <= i < |r| ==> r[i] == rest[i - 1];
        assert IdsAscending(r);
      }
    }
  }

  /** The effect of `UPDATE events SET ... WHERE id = :id` on the matching row:
      each assigned column takes its new value, every other column keeps its own. */
  function Apply(ev: Event, s: Assignments): Event {
    Event(
      ev.id,
      if s.title.Some? then s.title else ev.title,
      if s.description.Some? then s.description else ev.description,
      if s.allDay.Some? then s.allDay.value else ev.allDay,
      if s.start.Some? then s.start.value else ev.start,
      if s.end.Some? then s.end.value else ev.end)
  }

  /** The SET list of a second UPDATE laid over a first: a column the second
      assigns takes its value, any other keeps the first one's assignment. */
  function Override(s1: Assignments, s2: Assignments): (s: Assignments)
    ensures s.title.Some? <==> s1.title.Some? || s2.title.Some?
    ensures s.start.Some? <==> s1.start.Some? || s2.start.Some?
    ensures s.end.Some? <==> s1.end.Some? || s2.end.Some?
    ensures s.description.Some? <==> s1.description.Some? || s2.description.Some?
    ensures s.allDay.Some? <==> s1.allDay.Some? || s2.allDay.Some?
  {
    Assignments(
      if s2.title.Some? then s2.title else s1.title,
      if s2.start.Some? then s2.start else s1.start,
      if s2.end.Some? then s2.end else s1.end,
      if s2.description.Some? then s2.description else s1.description,
      if s2.allDay.Some? then s2.allDay else s1.allDay)
  }

  /** Two UPDATEs of one row in a row are one UPDATE whose SET list is the
      second laid over the first: the later value of a column wins, and a
      column only the first assigns keeps that value. */
  lemma ApplyComposes(ev: Event, s1: Assignments, s2: Assignments)
    ensures Apply(Apply(ev, s1), s2) == Apply(ev, Override(s1, s2))
  {
  }

  /** Updates that assign disjoint columns can run in either order. */
  lemma DisjointUpdatesCommute(ev: Event, s1: Assignments, s2: Assignments)
    requires !(s1.title.Some? && s2.title.Some?) && !(s1.start.Some? && s2.start.Some?)
    requires !(s1.end.Some? && s2.end.Some?) && !(s1.description.Some? && s2.description.Some?)
    requires !(s1.allDay.Some? && s2.allDay.Some?)
    ensures Apply(Apply(ev, s1), s2) == Apply(Apply(ev, s2), s1)
  {
  }

  /** An update that assigns nothing but the id leaves the row as it was, and
      running the same update twice is the same as running it once. */
  lemma ApplyIdentityAndIdempotent(ev: Event, s: Assignments)
    ensures Apply(ev, Assignments(None, None, None, None, None)) == ev
    ensures Apply(Apply(ev, s), s) == Apply(ev, s)
  {
  }

  /** The assignments that pass `update_event`'s validation (start and end
      together, and in order) keep a row's start no later than its end. */
  lemma ApplyKeepsOrder(ev: Event, s: Assignments)
    requires ev.start <= ev.end
    requires s.start.Some? == s.end.Some?
    requires s.start.Some? && s.end.Some? ==> s.start.value <= s.end.value
    ensures Apply(ev, s).start <= Apply(ev, s).end
  {
  }

  /** A query never returns a row that is not in the table: once an id is
      deleted, no window returns an event with that id. */
  lemma DeletedIdNotReturned(m: map<int, Event>, id: int, qStart: Timestamp, qEnd: Timestamp, lo: int, hi: int)
    requires Keyed(m)
    ensures forall e :: e in Select(m - {id}, qStart, qEnd, lo, hi) ==> e.id != id
  {
    SelectExactly(m - {id}, qStart, qEnd, lo, hi);
    var r := Select(m - {id}, qStart, qEnd, lo, hi);
    forall e | e in r ensures e.id != id {
      var i :| 0 <= i < |r| && r[i] == e;
    }
  }

  /** An inserted row is returned by exactly the windows it matches. */
  lemma InsertedEventFoundIff(m: map<int, Event>, e: Event, qStart: Timestamp, qEnd: Timestamp, lo: int, hi: int)
    requires Keyed(m) && e.id !in m && lo <= e.id < hi
    ensures e in Select(m[e.id := e], qStart, qEnd, lo, hi) <==> Matches(e, qStart, qEnd)
  {
    var m' := m[e.id := e];
    SelectExactly(m', qStart, qEnd, lo, hi);
    var r := Select(m', qStart, qEnd, lo, hi);
    assert m'[e.id] == e;
    if e in r {
      var i :| 0 <= i < |r| && r[i] == e;
    }
  }

  /** The `Calendar` object: the events table it owns, and its operations. */
  class Calendar {
    /** The `events` table, keyed by row id. */
    var events: map<int, Event>
    /** An upper bound on the row ids, so that the table can be scanned in id order. */
    var bound: int

    ghost predicate Valid()
      reads this
    {
      WellFormed(events, bound)
    }

    /** A calendar over a freshly created, empty table. */
    constructor ()
      ensures Valid()
      ensures events == map[] && bound == 1
    {
      events := map[];
      bound := 1;
    }

    /** `add_event`: rejects a start later than the end; otherwise inserts one
        row under a fresh id and changes nothing else. A start equal to the end
        is accepted. */
    method AddEvent(title: Option<string>, start: Timestamp, end: Timestamp,
                    description: Option<string>, allDay: bool)
      returns (r: Outcome<CalendarError>)
      requires Valid()
      modifies this
      ensures Valid()
      ensures r.Fail? <==> start > end
      ensures r.Fail? ==> r.error == StartAfterEnd && events == old(events) && bound == old(bound)
      ensures r.Pass? ==>
        var id := NextRowId(old(events), old(bound));
        && id !in old(events)
        && events == old(events)[id := Event(id, title, description, allDay, start, end)]
        && bound == (if id == old(bound) then old(bound) + 1 else old(bound))
    {
      if start > end {
        return Fail(StartAfterEnd);
      }
      var id := NextRowId(events, bound);
      events := events[id := Event(id, title, description, allDay, start, end)];
      if id == bound {
        bound := bound + 1;
      }
      r := Pass;
    }

    /** `get_events`: exactly the stored events that satisfy the WHERE clause,
        each once, in ascending id order; the table is only read. */
    function GetEvents(qStart: Timestamp, qEnd: Timestamp): (r: seq<Event>)
      reads this
      requires Valid()
      ensures forall i :: 0 <= i < |r| ==>
        r[i].id in events && events[r[i].id] == r[i] && Matches(r[i], qStart, qEnd)
      ensures forall id {:trigger events[id] in r} ::
        id in events && Matches(events[id], qStart, qEnd) ==> events[id] in r
      ensures IdsAscending(r)
    {
      SelectExactly(events, qStart, qEnd, 1, bound);
      Select(events, qStart, qEnd, 1, bound)
    }

    /** `delete_event`: removes the row with this id, if any, and reports how
        many rows went (1 or 0). Deleting a missing id is not an error. */
    method DeleteEvent(id: int) returns (rowcount: nat)
      requires Valid()
      modifies this
      ensures Valid()
      ensures rowcount == (if id in old(events) then 1 else 0)
      ensures events == old(events) - {id} && bound == old(bound)
    {
      rowcount := if id in events then 1 else 0;
      events := events - {id};
    }

    /** `update_event`: a partial update. Start and end must come together and
        in order; otherwise it raises before anything is written. On success it
        overwrites only the supplied columns of row `id` and reports 1, or 0
        with no change when there is no such row. */
    method UpdateEvent(id: int, title: Option<string>, start: Option<Timestamp>, end: Option<Timestamp>,
                       description: Option<string>, allDay: Option<bool>)
      returns (r: Result<nat, CalendarError>)
      requires Valid()
      modifies this
      ensures Valid() && bound == old(bound)
      ensures r.Failure? <==> start.Some? != end.Some? || (start.Some? && end.Some? && start.value > end.value)
      ensures r == Failure(UnpairedStartEnd) <==> start.Some? != end.Some?
      ensures r == Failure(StartAfterEnd) <==> start.Some? && end.Some? && start.value > end.value
      ensures r.Failure? ==> events == old(events)
      ensures r.Success? ==> r.value == (if id in old(events) then 1 else 0)
      ensures r.Success? && id in old(events) ==>
                events == old(events)[id := Apply(old(events)[id], Assignments(title, start, end, description, allDay))]
      ensures r.Success? && id !in old(events) ==> events == old(events)
    {
      var params := Assignments(None, None, None, None, None);
      if title.Some? {
        params := params.(title := title);
      }
      if start.Some? && end.Some? {
        if start.value > end.value {
          return Failure(StartAfterEnd);
        }
        params := params.(start := start, end := end);
      } else if start.Some? || end.Some? {
        return Failure(UnpairedStartEnd);
      }
      if description.Some? {
        params := params.(description := description);
      }
      if allDay.Some? {
        params := params.(allDay := allDay);
      }
      if id in events {
        ApplyKeepsOrder(events[id], params);
        events := events[id := Apply(events[id], params)];
        r := Success(1);
      } else {
        r := Success(0);
      }
    }
  }
}
