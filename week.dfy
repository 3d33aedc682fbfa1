/**
 * The week filters of the timetable: `filterEventsByCurrentWeek` and
 * `filterEventsByWeek`. The week starts at local midnight of the Monday
 * `getStartOfWeek` finds for the current date, shifted by seven days per
 * week of offset; the end of the window is a copy of that instant moved
 * six days on with `setDate`, which is midnight at the start of the
 * Sunday. An event is kept when its start is present, reads as a date,
 * and lies between the two instants, both included.
 */
module Week {
  import opened Text
  import opened Calendar
  import opened Feed

  /** `event.start` is truthy: present and not the empty string. */
  predicate HasStart(e: LessonEvent)
  {
    e.start.Some? && e.start.value != ""
  }

  /** The start of an event as a date, when it is truthy and `new Date` accepts its ISO rewrite. */
  function StartDate(e: LessonEvent): (r: Option<DateTime>)
    ensures r.Some? ==> HasStart(e) && Valid(r.value)
    ensures r.Some? <==> HasStart(e) && Decode(e.start.value).Some?
  {
    if HasStart(e) then Decode(e.start.value) else None
  }

  /** The instant lies between midnight of day `monday` and midnight six days later, both included. */
  predicate InWindow(dt: DateTime, monday: int)
    requires Valid(dt)
  {
    monday * SecondsPerDay <= LocalSeconds(dt) <= (monday + 6) * SecondsPerDay
  }

  /** The filter's test on one event. */
  predicate Kept(e: LessonEvent, monday: int)
  {
    StartDate(e).Some? && InWindow(StartDate(e).value, monday)
  }

  /** `events.filter(...)` with the window that starts on day `monday`. */
  function FilterWindow(events: seq<LessonEvent>, monday: int): (r: seq<LessonEvent>)
    ensures |r| <= |events|
    ensures forall e :: e in r <==> e in events && Kept(e, monday)
  {
    if events == [] then []
    else
      var rest := FilterWindow(events[1..], monday);
      assert events == [events[0]] + events[1..];
      if Kept(events[0], monday) then [events[0]] + rest else rest
  }

  /** Each kept event appears as often as in the input, every other event not at all. */
  lemma {:induction false} FilterWindowCount(events: seq<LessonEvent>, monday: int, e: LessonEvent)
    ensures multiset(FilterWindow(events, monday))[e] == if Kept(e, monday) then multiset(events)[e] else 0
    decreases |events|
  {
    if events != [] {
      var head, tail := events[0], events[1..];
      FilterWindowCount(tail, monday, e);
      assert events == [head] + tail;
      assert multiset(events) == multiset([head]) + multiset(tail);
      var rest := FilterWindow(tail, monday);
      if Kept(head, monday) {
        assert FilterWindow(events, monday) == [head] + rest;
        assert multiset(FilterWindow(events, monday)) == multiset([head]) + multiset(rest);
      } else {
        assert FilterWindow(events, monday) == rest;
      }
    }
  }

  /** Filtering commutes with concatenation, so the kept events stay in input order. */
  lemma {:induction false} FilterWindowAppend(a: seq<LessonEvent>, b: seq<LessonEvent>, monday: int)
    ensures FilterWindow(a + b, monday) == FilterWindow(a, monday) + FilterWindow(b, monday)
    decreases |a|
  {
    if a != [] {
      var ab := a + b;
      assert ab != [] && ab[0] == a[0];
      assert ab[1..] == a[1..] + b;
      FilterWindowAppend(a[1..], b, monday);
      var rest := FilterWindow(ab[1..], monday);
      assert FilterWindow(ab, monday) == if Kept(a[0], monday) then [a[0]] + rest else rest;
      assert FilterWindow(a, monday) == if Kept(a[0], monday) then [a[0]] + FilterWindow(a[1..], monday) else FilterWindow(a[1..], monday);
    } else {
      assert a + b == b;
    }
  }

  /** The day number of the Monday that starts the week `offset` weeks from the current one. */
  function WeekStart(now: DateTime, offset: int): (monday: int)
    requires 1 <= now.month <= 12
    ensures Weekday(monday) == 1
    ensures monday == StartOfWeek(now) + 7 * offset
  {
    WeekdayShift(StartOfWeek(now), offset);
    StartOfWeek(now) + 7 * offset
  }

  /** `filterEventsByWeek(events, weekOffset)`, with the current date `now` as a parameter. */
  function FilterEventsByWeek(events: seq<LessonEvent>, now: DateTime, offset: int): (r: seq<LessonEvent>)
    requires 1 <= now.month <= 12
    ensures forall e :: e in r <==> e in events && Kept(e, WeekStart(now, offset))
    ensures forall e :: e in r ==> HasStart(e)
  {
    FilterWindow(events, WeekStart(now, offset))
  }

  /** `filterEventsByCurrentWeek(events)`, with the current date `now` as a parameter. */
  function FilterEventsByCurrentWeek(events: seq<LessonEvent>, now: DateTime): (r: seq<LessonEvent>)
    requires 1 <= now.month <= 12
    ensures forall e :: e in r <==> e in events && Kept(e, StartOfWeek(now))
    ensures r == FilterEventsByWeek(events, now, 0)
  {
    FilterWindow(events, StartOfWeek(now))
  }

  /**
   * In terms of days: an instant is in the window exactly when it falls on
   * one of the six days Monday to Saturday, or is the Sunday's midnight.
   */
  lemma {:induction false} InWindowDays(dt: DateTime, monday: int)
    requires Valid(dt)
    ensures InWindow(dt, monday) <==>
      (monday <= DayOf(dt) <= monday + 5 || LocalSeconds(dt) == (monday + 6) * SecondsPerDay)
  {
    var t := LocalSeconds(dt);
    var d := DayOf(dt);
    assert d * SecondsPerDay <= t < (d + 1) * SecondsPerDay;
    if monday <= d <= monday + 5 {
      assert monday * SecondsPerDay <= d * SecondsPerDay;
      assert (d + 1) * SecondsPerDay <= (monday + 6) * SecondsPerDay;
    }
  }

  /** An event that starts on Monday to Saturday of a week is kept by that week's filter. */
  lemma WeekdayStartKept(e: LessonEvent, now: DateTime, offset: int)
    requires 1 <= now.month <= 12
    requires StartDate(e).Some?
    requires StartOfWeekDay(DayOf(StartDate(e).value)) == WeekStart(now, offset)
    requires GetDay(StartDate(e).value) != 0
    ensures Kept(e, WeekStart(now, offset))
  {
    var dt := StartDate(e).value;
    var m := WeekStart(now, offset);
    InWindowDays(dt, m);
    assert Weekday(DayOf(dt)) != 0;
  }

  /** A Sunday is not among the six days from a Monday to the Saturday after it. */
  lemma SundayNotInFirstSix(monday: int, d: int)
    requires Weekday(monday) == 1 && Weekday(d) == 0
    ensures !(monday <= d <= monday + 5)
  {
    var a, b := (d + 4) / 7, (monday + 4) / 7;
    assert d + 4 == 7 * a;
    assert monday + 4 == 7 * b + 1;
    assert d - monday == 7 * (a - b) - 1;
  }

  /**
   * The gap the window leaves: an event that starts on a Sunday after its
   * midnight is kept by no week's filter.
   */
  lemma SundayGap(e: LessonEvent, monday: int)
    requires Weekday(monday) == 1
    requires StartDate(e).Some? && GetDay(StartDate(e).value) == 0
    requires LocalSeconds(StartDate(e).value) % SecondsPerDay != 0
    ensures !Kept(e, monday)
  {
    var dt := StartDate(e).value;
    InWindowDays(dt, monday);
    SundayNotInFirstSix(monday, DayOf(dt));
  }

  /** The windows of two different offsets share no event. */
  lemma KeptInOneWeek(e: LessonEvent, now: DateTime, a: int, b: int)
    requires 1 <= now.month <= 12
    requires Kept(e, WeekStart(now, a)) && Kept(e, WeekStart(now, b))
    ensures a == b
  {
    var ma, mb := WeekStart(now, a), WeekStart(now, b);
    var t := LocalSeconds(StartDate(e).value);
    assert ma * SecondsPerDay <= t <= (ma + 6) * SecondsPerDay;
    assert mb * SecondsPerDay <= t <= (mb + 6) * SecondsPerDay;
    assert ma - mb == 7 * (a - b);
    assert ma <= mb + 6 && mb <= ma + 6;
  }

  /** Moving one week on starts the window seven days later. */
  lemma NextWeekWindow(events: seq<LessonEvent>, now: DateTime, offset: int)
    requires 1 <= now.month <= 12
    ensures FilterEventsByWeek(events, now, offset + 1) == FilterWindow(events, WeekStart(now, offset) + 7)
    ensures FilterEventsByWeek(events, now, offset - 1) == FilterWindow(events, WeekStart(now, offset) - 7)
  {
    var m := WeekStart(now, offset);
    assert WeekStart(now, offset + 1) == m + 7;
    assert WeekStart(now, offset - 1) == m - 7;
  }
}
