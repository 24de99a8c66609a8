/** The end-to-end scenario of tests/test_calendar.py, replayed as a proof
    against the model of each calendar, and the all-day cases of
    tests/test_local_calendar.py as the modelled code handles them. Times are seconds since 1970-01-01. */
module Scenarios {
  import opened Wrappers
  import Calendar
  import LocalCalendar

  /** Midnight starting April `d`, 2017. */
  function April2017(d: int): int {
    1490918400 + 86400 * d
  }

  /** Europe/Brussels in April 2017 (summer time, two hours ahead of UTC). */
  const Brussels := LocalCalendar.FixedOffset(7200)

  const One := Calendar.Event(1, Some("one"), None, false, April2017(1), April2017(2))
  const Two := Calendar.Event(2, Some("two"), None, true, April2017(3), April2017(4))
  const Three := Calendar.Event(3, Some("three"), Some("three"), false, April2017(5), April2017(6))
  const Four := Calendar.Event(4, Some("four"), None, false, April2017(7), April2017(8))
  /** "four" after the update to April 1-2, all day. */
  const Moved := Calendar.Event(4, Some("four"), None, true, April2017(1), April2017(2))

  /** The three events the final query of the scenario returns, in the order
      the code as written returns them (ascending id). */
  function ScenarioResult(): seq<Calendar.Event> {
    [Two, Three, Moved]
  }

  /** An event as stored when its times were given in a zone `offset` ahead of UTC. */
  function Stored(ev: Calendar.Event, offset: int): Calendar.Event {
    ev.(start := ev.start - offset, end := ev.end - offset)
  }

  /** The query window April 1-8 over the four added events returns all four. */
  lemma WindowAfterAdds(o: int)
    ensures var m := map[1 := Stored(One, o), 2 := Stored(Two, o), 3 := Stored(Three, o), 4 := Stored(Four, o)];
      Calendar.Select(m, April2017(1) - o, April2017(8) - o, 1, 5)
      == [Stored(One, o), Stored(Two, o), Stored(Three, o), Stored(Four, o)]
  {
    var m := map[1 := Stored(One, o), 2 := Stored(Two, o), 3 := Stored(Three, o), 4 := Stored(Four, o)];
    var a, b := April2017(1) - o, April2017(8) - o;
    assert Calendar.Select(m, a, b, 5, 5) == [];
    assert Calendar.Select(m, a, b, 4, 5) == [Stored(Four, o)];
    assert Calendar.Select(m, a, b, 3, 5) == [Stored(Three, o), Stored(Four, o)];
    assert Calendar.Select(m, a, b, 2, 5) == [Stored(Two, o), Stored(Three, o), Stored(Four, o)];
  }

  /** After the delete and the update the same window returns the remaining three. */
  lemma WindowAfterUpdate(o: int)
    ensures var m := map[2 := Stored(Two, o), 3 := Stored(Three, o), 4 := Stored(Moved, o)];
      Calendar.Select(m, April2017(1) - o, April2017(8) - o, 1, 5)
      == [Stored(Two, o), Stored(Three, o), Stored(Moved, o)]
  {
    var m := map[2 := Stored(Two, o), 3 := Stored(Three, o), 4 := Stored(Moved, o)];
    var a, b := April2017(1) - o, April2017(8) - o;
    assert Calendar.Select(m, a, b, 5, 5) == [];
    assert Calendar.Select(m, a, b, 4, 5) == [Stored(Moved, o)];
    assert Calendar.Select(m, a, b, 3, 5) == [Stored(Three, o), Stored(Moved, o)];
  }

  /** test_everything with `Calendar`: four adds, delete the first event the
      query returns, move the fourth to April 1-2 as all-day, query again. */
  method TestEverything() returns (result: seq<Calendar.Event>)
    ensures result == ScenarioResult()
  {
    assert Stored(One, 0) == One && Stored(Two, 0) == Two && Stored(Three, 0) == Three;
    assert Stored(Four, 0) == Four && Stored(Moved, 0) == Moved;
    var c := new Calendar.Calendar();
    var r1 := c.AddEvent(Some("one"), April2017(1), April2017(2), None, false);
    assert Calendar.LargestId(map[], 1) == 0;
    assert c.events == map[1 := One] && c.bound == 2;
    var r2 := c.AddEvent(Some("two"), April2017(3), April2017(4), None, true);
    assert Calendar.LargestId(map[1 := One], 2) == 1;
    assert c.events == map[1 := One, 2 := Two] && c.bound == 3;
    var r3 := c.AddEvent(Some("three"), April2017(5), April2017(6), Some("three"), false);
    assert Calendar.LargestId(map[1 := One, 2 := Two], 3) == 2;
    assert c.events == map[1 := One, 2 := Two, 3 := Three] && c.bound == 4;
    var r4 := c.AddEvent(Some("four"), April2017(7), April2017(8), None, false);
    assert Calendar.LargestId(map[1 := One, 2 := Two, 3 := Three], 4) == 3;
    assert c.events == map[1 := One, 2 := Two, 3 := Three, 4 := Four] && c.bound == 5;

    var events := c.GetEvents(April2017(1), April2017(8));
    WindowAfterAdds(0);
    assert events == [One, Two, Three, Four];
    var deleted := c.DeleteEvent(events[0].id);
    assert c.events == map[2 := Two, 3 := Three, 4 := Four];
    var updated := c.UpdateEvent(events[3].id, None, Some(April2017(1)), Some(April2017(2)), None, Some(true));
    assert updated.Success?;
    assert Calendar.Apply(Four, Calendar.Assignments(None, Some(April2017(1)), Some(April2017(2)), None, Some(true))) == Moved;
    assert c.events == map[2 := Two, 3 := Three, 4 := Four][4 := Moved];
    result := c.GetEvents(April2017(1), April2017(8));
    WindowAfterUpdate(0);
  }

  /** test_everything with `LocalCalendar` in Brussels: the table holds UTC
      times two hours earlier, and the query shows the local times given. */
  method TestEverythingLocal() returns (result: seq<Calendar.Event>)
    ensures result == ScenarioResult()
  {
    var o := 7200;
    var base := new Calendar.Calendar();
    var c := new LocalCalendar.LocalCalendar(base, Brussels);
    var r1 := c.AddEvent(Some("one"), LocalCalendar.Naive(April2017(1)), LocalCalendar.Naive(April2017(2)), None, false);
    assert Calendar.LargestId(map[], 1) == 0;
    assert base.events == map[1 := Stored(One, o)] && base.bound == 2;
    var r2 := c.AddEvent(Some("two"), LocalCalendar.Naive(April2017(3)), LocalCalendar.Naive(April2017(4)), None, true);
    assert Calendar.LargestId(map[1 := Stored(One, o)], 2) == 1;
    assert base.events == map[1 := Stored(One, o), 2 := Stored(Two, o)] && base.bound == 3;
    var r3 := c.AddEvent(Some("three"), LocalCalendar.Naive(April2017(5)), LocalCalendar.Naive(April2017(6)), Some("three"), false);
    assert Calendar.LargestId(map[1 := Stored(One, o), 2 := Stored(Two, o)], 3) == 2;
    assert base.events == map[1 := Stored(One, o), 2 := Stored(Two, o), 3 := Stored(Three, o)] && base.bound == 4;
    var r4 := c.AddEvent(Some("four"), LocalCalendar.Naive(April2017(7)), LocalCalendar.Naive(April2017(8)), None, false);
    assert Calendar.LargestId(map[1 := Stored(One, o), 2 := Stored(Two, o), 3 := Stored(Three, o)], 4) == 3;
    assert base.events == map[1 := Stored(One, o), 2 := Stored(Two, o), 3 := Stored(Three, o), 4 := Stored(Four, o)];
    assert base.bound == 5;

    var events := c.GetEvents(LocalCalendar.Naive(April2017(1)), LocalCalendar.Naive(April2017(8)));
    WindowAfterAdds(o);
    assert |events| == 4 && events[0].id == 1 && events[3].id == 4;
    var deleted := c.DeleteEvent(events[0].id);
    assert base.events == map[2 := Stored(Two, o), 3 := Stored(Three, o), 4 := Stored(Four, o)];
    var updated := c.UpdateEvent(events[3].id, None, Some(LocalCalendar.Naive(April2017(1))),
                                 Some(LocalCalendar.Naive(April2017(2))), None, Some(true));
    assert updated.Success?;
    assert Calendar.Apply(Stored(Four, o), Calendar.Assignments(None, Some(April2017(1) - o), Some(April2017(2) - o), None, Some(true)))
           == Stored(Moved, o);
    assert base.events == map[2 := Stored(Two, o), 3 := Stored(Three, o), 4 := Stored(Four, o)][4 := Stored(Moved, o)];
    result := c.GetEvents(LocalCalendar.Naive(April2017(1)), LocalCalendar.Naive(April2017(8)));
    WindowAfterUpdate(o);
    assert LocalCalendar.ToLocal(Stored(Two, o), Brussels) == Two;
    assert LocalCalendar.ToLocal(Stored(Three, o), Brussels) == Three;
    assert LocalCalendar.ToLocal(Stored(Moved, o), Brussels) == Moved;
  }

  /** Midnight starting January 1, 1900. */
  const Jan1_1900 := -2208988800

  /** test_add_event_exceptions: an all-day event from 01:00 to 01:00 the next
      day. The test expects `InvalidArgument`; the code as written checks only
      the order of start and end, so in any fixed-offset zone it accepts it. */
  method TestAddEventExceptions(offset: int) returns (added: Outcome<Calendar.CalendarError>)
    ensures added == Pass
  {
    var base := new Calendar.Calendar();
    var c := new LocalCalendar.LocalCalendar(base, LocalCalendar.FixedOffset(offset));
    added := c.AddEvent(Some("one"), LocalCalendar.Naive(Jan1_1900 + 3600), LocalCalendar.Naive(Jan1_1900 + 90000),
                        None, true);
  }

  /** test_update_event_exceptions: moving an event to 01:00-01:00 as all-day.
      The test expects `InvalidArgument`; the code as written updates the row. */
  method TestUpdateEventExceptions(offset: int) returns (updated: Result<nat, Calendar.CalendarError>)
    ensures updated == Success(1)
  {
    var tz := LocalCalendar.FixedOffset(offset);
    var base := new Calendar.Calendar();
    var c := new LocalCalendar.LocalCalendar(base, tz);
    var added := c.AddEvent(Some("one"), LocalCalendar.Naive(Jan1_1900), LocalCalendar.Naive(Jan1_1900 + 90000),
                            None, false);
    var e := Calendar.Event(1, Some("one"), None, false, Jan1_1900 - offset, Jan1_1900 + 90000 - offset);
    assert Calendar.LargestId(map[], 1) == 0;
    assert base.events == map[1 := e] && base.bound == 2;
    var events := c.GetEvents(LocalCalendar.Naive(Jan1_1900), LocalCalendar.Naive(Jan1_1900 + 86400));
    assert Calendar.Select(map[1 := e], Jan1_1900 - offset, Jan1_1900 + 86400 - offset, 2, 2) == [];
    assert Calendar.Select(map[1 := e], Jan1_1900 - offset, Jan1_1900 + 86400 - offset, 1, 2) == [e];
    updated := c.UpdateEvent(events[0].id, None, Some(LocalCalendar.Naive(Jan1_1900 + 3600)),
                             Some(LocalCalendar.Naive(Jan1_1900 + 90000)), None, Some(true));
  }
}
