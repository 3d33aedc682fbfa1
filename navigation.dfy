/**
 * The week navigation: `currentWeekOffset` starts at 0, the next-week
 * button adds one and the previous-week button subtracts one, and each
 * change shows the events of the week at that offset. The navigator works
 * on an already parsed event sequence and takes the current date as a
 * parameter of each step.
 */
module Navigation {
  import opened Text
  import opened Calendar
  import opened Feed
  import opened Week
  import opened Display

  /** `loadEventsForWeek(weekOffset)` over parsed events: filter to the week, then display. */
  method LoadEventsForWeek(events: seq<LessonEvent>, now: DateTime, offset: int) returns (view: Option<Timetable>)
    requires 1 <= now.month <= 12
    ensures view == TimetableOf(FilterEventsByWeek(events, now, offset))
  {
    var shown := FilterEventsByWeek(events, now, offset);
    view := DisplayEvents(shown);
  }

  class WeekNavigator {
    /** `currentWeekOffset`: weeks forward (positive) or back (negative) from the current one. */
    var offset: int
    /** The parsed events the navigator filters. */
    var events: seq<LessonEvent>
    /** What the page shows; None after `displayEvents` threw. */
    var view: Option<Timetable>

    /** The week shown is the one at the current offset. */
    predicate Showing(now: DateTime)
      requires 1 <= now.month <= 12
      reads this
    {
      view == TimetableOf(FilterEventsByWeek(events, now, offset))
    }

    /** Page load: the offset is 0 and the current week is shown. */
    constructor (events: seq<LessonEvent>, now: DateTime)
      requires 1 <= now.month <= 12
      ensures this.offset == 0 && this.events == events
      ensures Showing(now)
    {
      var v := LoadEventsForWeek(events, now, 0);
      this.offset := 0;
      this.events := events;
      this.view := v;
    }

    /** The next-week button: one week forward, and that week shown. */
    method Next(now: DateTime)
      requires 1 <= now.month <= 12
      modifies this
      ensures offset == old(offset) + 1 && events == old(events)
      ensures Showing(now)
    {
      offset := offset + 1;
      view := LoadEventsForWeek(events, now, offset);
    }

    /** The previous-week button: one week back, and that week shown. */
    method Previous(now: DateTime)
      requires 1 <= now.month <= 12
      modifies this
      ensures offset == old(offset) - 1 && events == old(events)
      ensures Showing(now)
    {
      offset := offset - 1;
      view := LoadEventsForWeek(events, now, offset);
    }
  }
}
