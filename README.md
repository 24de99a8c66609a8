# boomtime calendar core in Dafny

A model of the event store of boomtime, a personal calendar. It covers two parts:

- `Calendar` keeps events in one SQLite table. It adds, queries, deletes and partially updates them.
- `LocalCalendar` wraps a `Calendar` for a given time zone. It converts the caller's datetimes to the naive UTC the table stores, and converts query results back.

Files:

- `wrappers.dfy`: `Option`, `Result` and `Outcome`. Python's `None` arguments become `Option`. A raised `CalendarError` becomes a `Failure`/`Fail` value.
- `calendar.dfy` (module `Calendar`): the `Event` record and the `events` table. The table is a `map<int, Event>` field of class `Calendar`. The WHERE clause of `get_events` is the predicate `Matches`. The UPDATE is `Apply`. The add, query, delete and update rules are the methods of `Calendar`.
- `local_calendar.dfy` (module `LocalCalendar`): datetimes, naive or aware (`DateTime`); an abstract time zone (`Zone`); `local_to_utc` and `utc_to_local`; and class `LocalCalendar`, which holds a `Calendar` and delegates to it.
- `scenarios.dfy` (module `Scenarios`): `tests/test_calendar.py` replayed as a proof against the model of each calendar, and the two tests in `tests/test_local_calendar.py`, as the code handles them.

Modelling choices:

- Timestamps are integers. A stored timestamp is an offset-naive instant read as UTC. SQLite stores them as ISO text, which sorts in time order, so `<=` on integers is SQL's comparison.
- The table is a map from row id to row, plus a bound on the ids. Every id lies in `[1, bound)`, and every row has its start no later than its end. All methods preserve this invariant (`Calendar.Valid`).
- A new row gets one more than the largest id in the table (1 for an empty table). This is SQLite's rule for an `INTEGER PRIMARY KEY` without AUTOINCREMENT.
- The query has no `ORDER BY`. It is modelled as a scan of the table in ascending id order, which is how SQLite reads a rowid table without an index.
- The query is a side-effect-free function, `GetEvents`. The wrapper's generator loop stays a loop, in `LocalCalendar.GetEvents`.
- A time zone is two arbitrary functions:
  - the UTC offset pytz's `localize` picks for a naive wall-clock time;
  - the offset in effect at a UTC instant.

  DST gaps and folds are allowed. `FixedOffset` is the zone with one offset, used for round trips and for Brussels in the scenarios.
- `if start and end` in `update_event` tests presence: a `datetime` is always truthy, so `Some` means "given".
- The source's `LocalCalendar` subclasses `Calendar`. Here it holds a `Calendar` and calls it.
- "Validation before `with self.db:`" is modelled as "an error leaves the table unchanged".

## Model

| member | source | states |
|---|---|---|
| Calendar.Matches | boomtime/calendar.py:32-35 | the WHERE clause as written; its meaning is proved by `Calendar.MatchesIsClosedOverlap`, `Calendar.TouchingEventsMatch` and `Calendar.MatchesIsHalfOpenOverlapOrTouch` |
| Calendar.MatchesIsClosedOverlap | boomtime/calendar.py:33-35 | for an event with start <= end and a window with start <= end, the three-way WHERE clause holds iff the closed intervals overlap (ev.start <= qEnd && ev.end >= qStart) |
| Calendar.TouchingEventsMatch | boomtime/calendar.py:34-35 | BETWEEN is inclusive: an event ending exactly at the window start, or starting exactly at the window end, is returned |
| Calendar.MatchesIsHalfOpenOverlapOrTouch | boomtime/calendar.py:33-35 | the clause returns exactly the events with a positive-length overlap, plus those that only touch the window at one end |
| Calendar.NextRowId | boomtime/calendar.py:21-24 | the id the INSERT receives is larger than every stored id and is either 1 or directly follows a stored id, so it is one more than the largest stored id (1 for an empty table); it is not in use and is at most the bound |
| Calendar.LargestId | boomtime/calendar.py:21-24 | the largest stored id below a bound (0 if none): every id between it and the bound is free |
| Calendar.Select | boomtime/calendar.py:29-39 | the table scan in row-id order filtered by the WHERE clause; `Calendar.SelectExactly` proves it returns exactly the matching rows, once each, in ascending id order |
| Calendar.SelectExactly | boomtime/calendar.py:29-39 | the scan returns each stored row in the id range that satisfies the WHERE clause, exactly once, in ascending id order, and no other row |
| Calendar.ApplyComposes | boomtime/calendar.py:50-70 | two UPDATEs of the same row equal one UPDATE whose SET list is the second laid over the first: the later value of a column wins, a column only the first assigns keeps its value |
| Calendar.DisjointUpdatesCommute | boomtime/calendar.py:50-70 | two UPDATEs that assign disjoint columns give the same row in either order |
| Calendar.Apply | boomtime/calendar.py:65-70 | the UPDATE statement on the matching row; `Calendar.ApplyIdentityAndIdempotent`, `Calendar.ApplyKeepsOrder`, `Calendar.ApplyComposes` and `Calendar.DisjointUpdatesCommute` carry its properties |
| Calendar.ApplyIdentityAndIdempotent | boomtime/calendar.py:50-70 | an UPDATE that sets only id (to itself) changes nothing, and repeating an UPDATE changes nothing more |
| Calendar.ApplyKeepsOrder | boomtime/calendar.py:53-57 | an update that passed validation (start and end together and ordered) keeps the row's start no later than its end |
| Calendar.DeletedIdNotReturned | boomtime/calendar.py:41-47 | after a row's id is removed from the table, no query returns an event with that id |
| Calendar.InsertedEventFoundIff | boomtime/calendar.py:20-36 | a newly inserted row is returned by a query iff it satisfies that query's WHERE clause |
| Calendar.Calendar.constructor | boomtime/calendar.py:14-15 | a new calendar over an empty table satisfies the invariant |
| Calendar.Calendar.AddEvent | boomtime/calendar.py:17-24 | raises StartAfterEnd iff start > end (start == end is accepted), and then leaves the table unchanged; otherwise adds exactly one row with the given fields under a fresh id, changes no other row, and keeps the invariant |
| Calendar.Calendar.GetEvents | boomtime/calendar.py:26-39 | returns only stored events that satisfy the WHERE clause, each unchanged; returns every stored event that satisfies it; ids strictly ascending; the table is only read |
| Calendar.Calendar.DeleteEvent | boomtime/calendar.py:41-47 | returns 1 and removes exactly that row if the id exists; otherwise returns 0 and the table is unchanged |
| Calendar.Calendar.UpdateEvent | boomtime/calendar.py:49-71 | fails iff exactly one of start/end is given (UnpairedStartEnd) or both are given with start > end (StartAfterEnd); any failure leaves the table unchanged, even for a missing id; on success returns 1 and applies only the supplied columns to row id, or returns 0 with no change when id is absent; keeps the invariant |
| LocalCalendar.LocalToUtc | boomtime/local_calendar.py:6-9 | the result is always offset-naive; for a naive input, adding back the offset the zone picks for that wall time gives the input; for an aware input, adding back its own offset does |
| LocalCalendar.UtcToLocal | boomtime/local_calendar.py:11-13 | requires an offset-naive input (the assert); returns an offset-naive local time, namely the input shifted by the offset in effect at that instant |
| LocalCalendar.AwareIgnoresZone | boomtime/local_calendar.py:8-9 | an offset-aware datetime converts to the same UTC value whatever the wrapper's zone |
| LocalCalendar.RoundTripIff | boomtime/local_calendar.py:6-13 | utc_to_local(local_to_utc(x)) == x for a naive x iff the offset localize picks for x is the offset in effect at the instant x denotes |
| LocalCalendar.FixedOffsetRoundTrip | boomtime/local_calendar.py:6-13 | in a fixed-offset zone each conversion undoes the other, in both directions |
| LocalCalendar.FixedOffsetKeepsOrder | boomtime/local_calendar.py:28-31 | in a fixed-offset zone the converted start is later than the converted end iff the local start is later than the local end |
| LocalCalendar.ToUtcOption | boomtime/local_calendar.py:43-44 | a given start/end is converted with local_to_utc; an absent one stays absent |
| LocalCalendar.ToLocal | boomtime/local_calendar.py:37-39 | the `_replace` keeps id, title, description and all_day, and shows start and end through utc_to_local |
| LocalCalendar.StoredLocalTimesReadBack | boomtime/local_calendar.py:28-40 | in a fixed-offset zone, an event stored from local start/end x, y is shown with start x and end y |
| LocalCalendar.LocalCalendar.constructor | boomtime/local_calendar.py:18-20 | the wrapper holds the given calendar and zone |
| LocalCalendar.LocalCalendar.AddEvent | boomtime/local_calendar.py:28-31 | both times are converted before delegating: raises iff the converted start is later than the converted end (the table is then unchanged); otherwise stores one row with the converted times under a fresh id |
| LocalCalendar.LocalCalendar.GetEvents | boomtime/local_calendar.py:33-40 | runs the base query on the converted window; returns the same number of events in the same order, each the base event with start/end through utc_to_local and all other fields unchanged |
| LocalCalendar.LocalCalendar.DeleteEvent | boomtime/local_calendar.py:16 | the inherited delete_event: returns 1 and removes the row if the id exists, otherwise returns 0 with no change |
| LocalCalendar.LocalCalendar.UpdateEvent | boomtime/local_calendar.py:42-45 | converts only the given start/end and passes absent ones as absent: the "both must be given" error fires iff exactly one is missing, the order error iff the converted start is later than the converted end; otherwise it applies the base update with the converted times |
| Scenarios.TestEverything | tests/test_calendar.py:15-47 | with Calendar: four adds, delete the first event returned, move the fourth to April 1-2 all-day; the window then holds exactly "two", "three" and "four" with the asserted fields, in that (id) order |
| Scenarios.TestEverythingLocal | tests/test_calendar.py:11-47 | the same scenario through LocalCalendar in a +2h zone gives the same three events with the same local start and end times |
| Scenarios.TestAddEventExceptions | tests/test_local_calendar.py:16-18 | as written, an all-day event from 01:00 to 01:00 the next day is accepted (the test expects InvalidArgument) |
| Scenarios.TestUpdateEventExceptions | tests/test_local_calendar.py:21-25 | as written, moving an event to 01:00-01:00 all-day succeeds with rowcount 1 (the test expects InvalidArgument) |

## Left out

- boomtime/db.py is not part of this model. It covers the SQLite connection, schema creation, version check and DDL transactions. The table is a map; a raised error means no write.
- boomtime/cli.py is not part of this model. It covers click command wiring, dateutil parsing, tzlocal lookup and output.
- boomtime/exceptions.py: `MissingArgument` and `InvalidArgument` are never raised by the modelled code. It raises only its own plain `CalendarError`, modelled as two error values named after its two messages.
- Real time zone rules: the pytz/IANA offsets, DST resolution in `localize`. The zone is two abstract offset functions.
- Sub-second precision is not modelled. Timestamps are integers in a fixed unit.
- SQL text building and sqlite3 value types. `all_day` is read back from SQLite as 0/1, not as a bool; the model keeps a bool.
- Row ids past SQLite's 64-bit maximum (where SQLite picks a random unused id) are not modelled. Ids are unbounded.
- Calendar.Calendar.GetEvents: result order is ascending id, the order of SQLite's table scan. SQL itself guarantees no order without ORDER BY.
- Calendar.Calendar.AddEvent: returns only success or the error, as the source does. The new id is visible only through `GetEvents`.
- Ordering by start, which tests/test_calendar.py:31 expects (`one.title == 'four'`), is not implemented by the code. `Scenarios.TestEverything` shows the code returns "two", "three", "four".
- The all-day checks are not implemented by the code:
  - tests/test_local_calendar.py:17,24 expect `InvalidArgument` for all-day events not at local midnight;
  - whole-day durations are not checked either.

  The model has none of these checks. `Scenarios.TestAddEventExceptions` and `Scenarios.TestUpdateEventExceptions` show the code accepts both cases.
- Behaviour of the code that the model keeps as it is:
  - queries are closed intervals (`BETWEEN`), so an event that only touches the window is returned (see `Calendar.MatchesIsHalfOpenOverlapOrTouch`);
  - `update_event` does not require `all_day` when start/end are given, and accepts `all_day` alone;
  - `add_event` returns `None`.
- Aware datetimes passed straight to `Calendar` are not modelled; `Calendar` takes naive UTC timestamps only. In Python, comparing them with naive values raises `TypeError`.
- The `TODO: all_day == 1 needs a different query` at boomtime/calendar.py:27 describes behaviour that does not exist, so nothing is modelled for it.
- Laziness of both `get_events`: they are generators, so the window conversion and the SELECT run at the first iteration, not at the call. The model computes the whole list at the call.
- The datetime range: Python datetimes cover only years 1 to 9999, so `local_to_utc` and `utc_to_local` can raise `OverflowError` at either end. Timestamps here are unbounded integers, so that error is not modelled.
