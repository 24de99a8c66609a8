/** The local-time wrapper of boomtime/local_calendar.py: conversions between a
    caller's datetimes and the naive UTC timestamps the events table stores,
    and a `LocalCalendar` that converts on the way in and on the way out around
    a `Calendar`.

    The time zone is reduced to the two answers pytz gives the wrapper: the UTC
    offset that `localize` picks for a naive wall-clock time, and the offset in
    effect at a UTC instant. Both are arbitrary functions, so gaps and folds of
    a real zone are allowed; `FixedOffset` is the zone with one offset. */
module LocalCalendar {
  import opened Wrappers
  import Calendar

  /** A `datetime` as a caller hands it over: offset-naive, or offset-aware
      carrying its own UTC offset. `wall` is the wall-clock reading. */
  datatype DateTime = Naive(wall: int) | Aware(wall: int, offset: int)

  /** A time zone: the offset `localize` gives a naive wall-clock time, and
      the offset in effect at a UTC instant. */
  datatype Zone = Zone(offsetForWall: int -> int, offsetAtInstant: int -> int)

  /** The zone whose offset never changes. */
  function FixedOffset(offset: int): Zone {
    Zone(_ => offset, _ => offset)
  }

  /** `local_to_utc`: a naive datetime is read as wall-clock time in `tz`; an
      aware one is converted with its own offset and the zone plays no part.
      The result is always offset-naive, and adding back the offset used gives
      the wall-clock reading again. */
  function LocalToUtc(dt: DateTime, tz: Zone): (r: DateTime)
    ensures r.Naive?
    ensures dt.Naive? ==> r.wall + tz.offsetForWall(dt.wall) == dt.wall
    ensures dt.Aware? ==> r.wall + dt.offset == dt.wall
  {
    match dt
    case Naive(w) => Naive(w - tz.offsetForWall(w))
    case Aware(w, o) => Naive(w - o)
  }

  /** `utc_to_local`: the caller must pass an offset-naive datetime (the source
      asserts it); the result is the offset-naive wall-clock time in `tz`. */
  function UtcToLocal(dt: DateTime, tz: Zone): (r: DateTime)
    requires dt.Naive?
    ensures r.Naive?
    ensures r.wall - tz.offsetAtInstant(dt.wall) == dt.wall
  {
    Naive(dt.wall + tz.offsetAtInstant(dt.wall))
  }

  /** An aware datetime is converted the same way whatever the wrapper's zone. */
  lemma AwareIgnoresZone(w: int, o: int, tz1: Zone, tz2: Zone)
    ensures LocalToUtc(Aware(w, o), tz1) == LocalToUtc(Aware(w, o), tz2)
  {
  }

  /** A naive wall-clock time survives the trip to UTC and back exactly when the
      offset `localize` picked for it is the one in effect at the instant it
      names (which fails in a gap of the zone). */
  lemma RoundTripIff(w: int, tz: Zone)
    ensures UtcToLocal(LocalToUtc(Naive(w), tz), tz) == Naive(w)
            <==> tz.offsetAtInstant(w - tz.offsetForWall(w)) == tz.offsetForWall(w)
  {
  }

  /** In a fixed-offset zone both conversions are inverse to each other. */
  lemma FixedOffsetRoundTrip(w: int, u: int, offset: int)
    ensures UtcToLocal(LocalToUtc(Naive(w), FixedOffset(offset)), FixedOffset(offset)) == Naive(w)
    ensures LocalToUtc(UtcToLocal(Naive(u), FixedOffset(offset)), FixedOffset(offset)) == Naive(u)
  {
  }

  /** In a fixed-offset zone the order of naive local times is the order of the
      UTC instants they name, so the wrapper rejects exactly the local pairs
      whose start is later than their end. */
  lemma FixedOffsetKeepsOrder(x: int, y: int, offset: int)
    ensures LocalToUtc(Naive(x), FixedOffset(offset)).wall > LocalToUtc(Naive(y), FixedOffset(offset)).wall
            <==> x > y
  {
  }

  /** How `update_event` converts an optional datetime: present ones go to
      UTC, absent ones stay absent. */
  function ToUtcOption(dt: Option<DateTime>, tz: Zone): (r: Option<Calendar.Timestamp>)
    ensures r.Some? <==> dt.Some?
    ensures dt.Some? ==> Naive(r.value) == LocalToUtc(dt.value, tz)
  {
    match dt
    case None => None
    case Some(d) => Some(LocalToUtc(d, tz).wall)
  }

  /** The `_replace` in `get_events`: start and end shown in local time, every
      other field as stored. */
  function ToLocal(ev: Calendar.Event, tz: Zone): (r: Calendar.Event)
    ensures r.id == ev.id && r.title == ev.title && r.description == ev.description && r.allDay == ev.allDay
    ensures Naive(r.start) == UtcToLocal(Naive(ev.start), tz)
    ensures Naive(r.end) == UtcToLocal(Naive(ev.end), tz)
  {
    ev.(start := UtcToLocal(Naive(ev.start), tz).wall, end := UtcToLocal(Naive(ev.end), tz).wall)
  }

  /** An event stored from local times in a fixed-offset zone reads back with
      the same local times. */
  lemma StoredLocalTimesReadBack(ev: Calendar.Event, x: int, y: int, offset: int)
    requires ev.start == LocalToUtc(Naive(x), FixedOffset(offset)).wall
    requires ev.end == LocalToUtc(Naive(y), FixedOffset(offset)).wall
    ensures ToLocal(ev, FixedOffset(offset)).start == x
    ensures ToLocal(ev, FixedOffset(offset)).end == y
  {
  }

  /** `LocalCalendar`: a `Calendar` seen through a time zone. */
  class LocalCalendar {
    /** The wrapped calendar (the base class in the source). */
    const calendar: Calendar.Calendar
    /** The zone captured at construction. */
    const tz: Zone

    ghost predicate Valid()
      reads calendar
    {
      calendar.Valid()
    }

    constructor (calendar: Calendar.Calendar, tz: Zone)
      ensures this.calendar == calendar && this.tz == tz
    {
      this.calendar := calendar;
      this.tz := tz;
    }

    /** `add_event`: both start and end go to UTC before the base rule runs, so
        it raises exactly when the converted start is later than the converted
        end, and otherwise stores the converted times. */
    method AddEvent(title: Option<string>, start: DateTime, end: DateTime,
                    description: Option<string>, allDay: bool)
      returns (r: Outcome<Calendar.CalendarError>)
      requires Valid()
      modifies calendar
      ensures Valid()
      ensures var s, e := LocalToUtc(start, tz).wall, LocalToUtc(end, tz).wall;
        && (r.Fail? <==> s > e)
        && (r.Fail? ==> r.error == Calendar.StartAfterEnd && calendar.events == old(calendar.events)
                        && calendar.bound == old(calendar.bound))
        && (r.Pass? ==>
              var id := Calendar.NextRowId(old(calendar.events), old(calendar.bound));
              && id !in old(calendar.events)
              && calendar.events == old(calendar.events)[id := Calendar.Event(id, title, description, allDay, s, e)]
              && calendar.bound == (if id == old(calendar.bound) then old(calendar.bound) + 1 else old(calendar.bound)))
    {
      var s := LocalToUtc(start, tz);
      var e := LocalToUtc(end, tz);
      r := calendar.AddEvent(title, s.wall, e.wall, description, allDay);
    }

    /** `get_events`: the base query on the converted window, with the same
        number of events in the same order, each shown in local time. */
    method GetEvents(qStart: DateTime, qEnd: DateTime) returns (r: seq<Calendar.Event>)
      requires Valid()
      ensures var base := calendar.GetEvents(LocalToUtc(qStart, tz).wall, LocalToUtc(qEnd, tz).wall);
        && |r| == |base|
        && forall i :: 0 <= i < |r| ==> r[i] == ToLocal(base[i], tz)
    {
      var s := LocalToUtc(qStart, tz);
      var e := LocalToUtc(qEnd, tz);
      var base := calendar.GetEvents(s.wall, e.wall);
      r := [];
      var i := 0;
      while i < |base|
        invariant 0 <= i <= |base|
        invariant |r| == i
        invariant forall k :: 0 <= k < i ==> r[k] == ToLocal(base[k], tz)
      {
        r := r + [ToLocal(base[i], tz)];
        i := i + 1;
      }
    }

    /** `delete_event`, inherited unchanged: ids carry no time, so nothing is
        converted. */
    method DeleteEvent(id: int) returns (rowcount: nat)
      requires Valid()
      modifies calendar
      ensures Valid()
      ensures rowcount == (if id in old(calendar.events) then 1 else 0)
      ensures calendar.events == old(calendar.events) - {id} && calendar.bound == old(calendar.bound)
    {
      rowcount := calendar.DeleteEvent(id);
    }

    /** `update_event`: only the supplied start and end are converted, absent
        ones are passed on as absent, so the base rule "both start and end must
        be given" fires exactly when one of them is missing. */
    method UpdateEvent(id: int, title: Option<string>, start: Option<DateTime>, end: Option<DateTime>,
                       description: Option<string>, allDay: Option<bool>)
      returns (r: Result<nat, Calendar.CalendarError>)
      requires Valid()
      modifies calendar
      ensures Valid() && calendar.bound == old(calendar.bound)
      ensures r == Failure(Calendar.UnpairedStartEnd) <==> start.Some? != end.Some?
      ensures var s, e := ToUtcOption(start, tz), ToUtcOption(end, tz);
        && (r.Failure? <==> s.Some? != e.Some? || (s.Some? && e.Some? && s.value > e.value))
        && (r == Failure(Calendar.StartAfterEnd) <==> s.Some? && e.Some? && s.value > e.value)
        && (r.Failure? ==> calendar.events == old(calendar.events))
        && (r.Success? ==> r.value == (if id in old(calendar.events) then 1 else 0))
        && (r.Success? && id in old(calendar.events) ==>
              calendar.events == old(calendar.events)[id := Calendar.Apply(old(calendar.events)[id],
                                                        Calendar.Assignments(title, s, e, description, allDay))])
        && (r.Success? && id !in old(calendar.events) ==> calendar.events == old(calendar.events))
    {
      var s := ToUtcOption(start, tz);
      var e := ToUtcOption(end, tz);
      r := calendar.UpdateEvent(id, title, s, e, description, allDay);
    }
  }
}
