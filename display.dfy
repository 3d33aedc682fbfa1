/**
 * `displayEvents` as a whole, and the tail of `parseICalendar` that feeds
 * it: the mobile list is written first and the grid after it, so an
 * exception thrown while writing the list leaves no grid. The lemmas here
 * restate what the grid and the list show in terms of the events and the
 * dates of their start tokens.
 */
module Display {
  import opened Text
  import opened Calendar
  import opened Feed
  import opened Week
  import opened Schedule

  /** What `displayEvents` draws: the mobile blocks and the desktop rows. */
  datatype Timetable = Timetable(mobile: seq<DayBlock>, grid: seq<Row>)

  /** `displayEvents(events)`, or None where it throws a TypeError. */
  function TimetableOf(events: seq<LessonEvent>): (r: Option<Timetable>)
    ensures r.Some? <==> MobileView(Entries(events)).Some?
    ensures r.Some? ==> |r.value.grid| == SlotCount && |r.value.mobile| <= 5 && WellShaped(r.value.mobile)
    ensures r.Some? ==> r.value.mobile == MobileView(Entries(events)).value && r.value.grid == GridView(Entries(events))
  {
    var entries := Entries(events);
    match MobileView(entries)
    case None => None
    case Some(blocks) => Some(Timetable(blocks, GridView(entries)))
  }

  /** The mobile loops, then the grid loops, over the entries of the events. */
  method DisplayEvents(events: seq<LessonEvent>) returns (view: Option<Timetable>)
    ensures view == TimetableOf(events)
  {
    var entries := Entries(events);
    var mobile := BuildMobile(entries);
    if mobile.None? {
      return None;
    }
    var grid := BuildGrid(entries);
    view := Some(Timetable(mobile.value, grid));
  }

  /** The end of `parseICalendar`: the parsed events of the current week, displayed. */
  method ShowCalendar(data: string, now: DateTime) returns (view: Option<Timetable>)
    requires 1 <= now.month <= 12
    ensures view == TimetableOf(FilterEventsByCurrentWeek(Run(InitialState, SplitLines(data), true).events, now))
  {
    var events := ParseICalendar(data);
    var shown := FilterEventsByCurrentWeek(events, now);
    view := DisplayEvents(shown);
  }

  /** The `find` test of the cell of weekday `day` and row `i`, on the event's start date. */
  predicate StartsInSlot(e: LessonEvent, day: int, i: int)
  {
    StartDate(e).Some?
    && var dt := StartDate(e).value;
    GetDay(dt) == day && SlotStart(i) <= GetHours(dt) * 60 + GetMinutes(dt) < SlotEnd(i)
  }

  lemma EntryInSlot(e: LessonEvent, day: int, i: int)
    ensures InSlot(EntryOf(e), day, SlotStart(i), SlotEnd(i)) <==> StartsInSlot(e, day, i)
  {
  }

  /**
   * A grid cell shows the first event, in input order, whose start is a
   * date in the cell's half hour on the cell's weekday, and it is empty
   * exactly when there is no such event.
   */
  lemma CellOfEvents(events: seq<LessonEvent>, day: int, i: int)
    ensures var c := CellFor(Entries(events), day, i);
      && (c.Lesson? <==> exists k :: 0 <= k < |events| && StartsInSlot(events[k], day, i))
      && (c.Lesson? ==> exists k :: (0 <= k < |events| && c.event == events[k] && StartsInSlot(events[k], day, i)
            && forall j :: 0 <= j < k ==> !StartsInSlot(events[j], day, i)))
  {
    var entries := Entries(events);
    CellContents(entries, day, i);
    forall k | 0 <= k < |events|
      ensures InSlot(entries[k], day, SlotStart(i), SlotEnd(i)) <==> StartsInSlot(events[k], day, i)
    {
      EntryInSlot(events[k], day, i);
    }
  }

  /** An event whose start falls on Monday to Friday and that has no end token. */
  predicate LacksEnd(e: LessonEvent)
  {
    e.end.None? && StartDate(e).Some? && 1 <= GetDay(StartDate(e).value) <= 5
  }

  /**
   * `displayEvents` throws exactly when an event has no start token, which
   * every day's filter decodes, or when an event whose start falls on Monday
   * to Friday has no end token, which the list decodes while writing it.
   */
  lemma DisplayFails(events: seq<LessonEvent>)
    ensures TimetableOf(events).None? <==>
      (exists k :: 0 <= k < |events| && events[k].start.None?)
      || (exists k :: 0 <= k < |events| && LacksEnd(events[k]))
  {
    var entries := Entries(events);
    assert AllStart(entries) <==> forall k :: 0 <= k < |events| ==> events[k].start.Some?;
    forall k | 0 <= k < |events|
      ensures (entries[k].event.end.None? && entries[k].moment.Some? && 1 <= entries[k].moment.value.weekday <= 5)
        <==> LacksEnd(events[k])
    {
    }
  }

  /** When every event has a start, the timetable is missing only where a lesson from Monday to Friday has no end. */
  lemma StartedDisplayFails(shown: seq<LessonEvent>)
    requires forall e :: e in shown ==> HasStart(e)
    ensures TimetableOf(shown).None? <==> exists e :: e in shown && LacksEnd(e)
  {
    DisplayFails(shown);
    forall k | 0 <= k < |shown|
      ensures shown[k].start.Some?
    {
      assert shown[k] in shown;
    }
    if exists e :: e in shown && LacksEnd(e) {
      var e :| e in shown && LacksEnd(e);
      var k :| 0 <= k < |shown| && shown[k] == e;
    }
  }

  /**
   * After either week filter every event has a start, so the timetable of a
   * week is missing only where a lesson from Monday to Friday has no end.
   */
  lemma WeekDisplayFails(events: seq<LessonEvent>, now: DateTime, offset: int)
    requires 1 <= now.month <= 12
    ensures var shown := FilterEventsByWeek(events, now, offset);
      TimetableOf(shown).None? <==> exists e :: e in shown && LacksEnd(e)
  {
    StartedDisplayFails(FilterEventsByWeek(events, now, offset));
  }

  /**
   * The list shows at most five blocks, each named after a school day and
   * none without lessons; block `b` is the whole block of the `b`-th
   * weekday, from Monday, on which some event starts.
   */
  lemma MobileBlocks(events: seq<LessonEvent>)
    requires TimetableOf(events).Some?
    ensures var blocks := TimetableOf(events).value.mobile;
      |blocks| <= 5
      && (forall b :: 0 <= b < |blocks| ==> blocks[b].name in DayNames && |blocks[b].lessons| > 0)
      && |blocks| == |DaysWith(PerDay(Entries(events)), 5)|
      && forall b :: 0 <= b < |blocks| ==> PerDay(Entries(events))[DaysWith(PerDay(Entries(events)), 5)[b]] == [blocks[b]]
  {
  }

  /** The grid has a row per half hour from 08:00 to 20:00, each with a cell per school day. */
  lemma GridOfEvents(events: seq<LessonEvent>, i: int, d: int)
    requires TimetableOf(events).Some? && 0 <= i < SlotCount && 0 <= d < 5
    ensures var grid := TimetableOf(events).value.grid;
      |grid| == SlotCount && grid[i].timeLabel == SlotLabel(i)
      && |grid[i].cells| == 5 && grid[i].cells[d] == CellFor(Entries(events), d + 1, i)
  {
    GridShape(Entries(events), i, d);
  }
}
