/**
 * The computational part of `displayEvents`: the desktop grid of half-hour
 * rows by the five school days, where each cell shows the first event in
 * input order that starts in that half hour on that day, and the mobile
 * list, one block per school day that has lessons, sorted by start time.
 * The DOM writes become values: rows of cells, and blocks of lessons.
 *
 * Every callback of `displayEvents` reads the same four numbers from
 * `new Date(convertICalDateToISO(e.start))`: the weekday, the hours, the
 * minutes and the time value. They depend on the event alone, so the model
 * reads them once per event into an `Entry` and the grid and the list work
 * on entries; `Entries` and the lemmas at the end tie this back to the
 * events and to the dates of their start tokens.
 */
module Schedule {
  import opened Text
  import opened Calendar
  import opened Feed
  import opened Week

  const StartHour := 8
  const EndHour := 20
  const SlotDuration := 30
  /** `aantalSlots`: two half hours per hour of the school day. */
  const SlotCount := (EndHour - StartHour) * 2

  /** The column headers `daysDesktop` and the mobile block names `days`, Monday first. */
  const DayNames: seq<string> := ["Maandag", "Dinsdag", "Woensdag", "Donderdag", "Vrijdag"]

  /**
   * `getDay()`, `getHours()`, `getMinutes()` and the time value of a date,
   * with the `formatHour` of its hours and minutes the mobile list prints.
   */
  datatype Moment = Moment(weekday: int, hours: int, minutes: int, time: int, clock: string)

  function MomentOf(dt: DateTime): (m: Moment)
    requires Valid(dt)
    ensures 0 <= m.weekday < 7 && 0 <= m.hours < 24 && 0 <= m.minutes < 60
    ensures m.clock == FormatHour(m.hours, m.minutes)
  {
    Moment(GetDay(dt), GetHours(dt), GetMinutes(dt), LocalSeconds(dt), FormatHour(GetHours(dt), GetMinutes(dt)))
  }

  /** An event with the moment its start token denotes; None when the start is absent or no date. */
  datatype Entry = Entry(event: LessonEvent, moment: Option<Moment>)

  function EntryOf(e: LessonEvent): (x: Entry)
    ensures x.event == e
    ensures x.moment.Some? <==> StartDate(e).Some?
    ensures x.moment.Some? ==> x.moment.value == MomentOf(StartDate(e).value)
  {
    DecodeEmpty();
    Entry(e, if e.start.Some? && Decode(e.start.value).Some? then Some(MomentOf(Decode(e.start.value).value)) else None)
  }

  function Entries(events: seq<LessonEvent>): (r: seq<Entry>)
    ensures |r| == |events| && forall k :: 0 <= k < |events| ==> r[k] == EntryOf(events[k])
  {
    seq(|events|, k requires 0 <= k < |events| => EntryOf(events[k]))
  }

  /** A template-literal field: the text, or "undefined" when the property is absent. */
  function Show(field: Option<string>): string
  {
    if field.Some? then field.value else "undefined"
  }

  /** The cell text `${subject} ${classNumber} ${additionalInfo}`. */
  function EventText(e: LessonEvent): string
  {
    Show(e.subject) + " " + Show(e.classNumber) + " " + Show(e.additionalInfo)
  }

  // ---------------------------------------------------------------- grid

  /** The first minute of the day in row `i`, and the first minute after it. */
  function SlotStart(i: int): int { StartHour * 60 + i * SlotDuration }

  function SlotEnd(i: int): int { SlotStart(i) + SlotDuration }

  /** The `find` callback of a cell: the start is a date in minutes `[lo, hi)` of weekday `day`. */
  predicate InSlot(x: Entry, day: int, lo: int, hi: int)
  {
    x.moment.Some?
    && lo <= x.moment.value.hours * 60 + x.moment.value.minutes < hi
    && x.moment.value.weekday == day
  }

  /** `events.find(...)`: the index of the first entry that passes the test. */
  function FindInSlot(entries: seq<Entry>, day: int, lo: int, hi: int): (r: Option<nat>)
    ensures r.Some? ==> r.value < |entries| && InSlot(entries[r.value], day, lo, hi)
    ensures r.Some? ==> forall k :: 0 <= k < r.value ==> !InSlot(entries[k], day, lo, hi)
    ensures r.None? ==> forall k :: 0 <= k < |entries| ==> !InSlot(entries[k], day, lo, hi)
    decreases |entries|
  {
    if entries == [] then None
    else if InSlot(entries[0], day, lo, hi) then Some(0)
    else
      var r := FindInSlot(entries[1..], day, lo, hi);
      if r.None? then None else Some(r.value + 1)
  }

  /** A grid cell: empty, or showing an event. */
  datatype Cell = Empty | Lesson(event: LessonEvent)

  /** The cell's `textContent`: the event's text, or "" for an empty slot. */
  function CellText(c: Cell): string
  {
    if c.Lesson? then EventText(c.event) else ""
  }

  datatype Row = Row(timeLabel: string, cells: seq<Cell>)

  /** The cell of row `i` in the column of weekday `day` (1 is Monday). */
  function CellFor(entries: seq<Entry>, day: int, i: int): Cell
  {
    match FindInSlot(entries, day, SlotStart(i), SlotEnd(i))
    case None => Empty
    case Some(k) => Lesson(entries[k].event)
  }

  /**
   * A cell shows the event of the first entry that starts in its half hour
   * on its day; it is empty exactly when no entry does.
   */
  lemma CellContents(entries: seq<Entry>, day: int, i: int)
    ensures var c := CellFor(entries, day, i);
      && (c.Lesson? <==> exists k :: 0 <= k < |entries| && InSlot(entries[k], day, SlotStart(i), SlotEnd(i)))
      && (c.Lesson? ==> exists k :: (0 <= k < |entries| && entries[k].event == c.event
            && InSlot(entries[k], day, SlotStart(i), SlotEnd(i))
            && forall j :: 0 <= j < k ==> !InSlot(entries[j], day, SlotStart(i), SlotEnd(i))))
  {
    var r := FindInSlot(entries, day, SlotStart(i), SlotEnd(i));
    if r.Some? {
      assert InSlot(entries[r.value], day, SlotStart(i), SlotEnd(i));
    }
  }

  /** The time column of row `i`: `formatHour` of the slot's start and end, joined by " - ". */
  function SlotLabel(i: int): string
  {
    FormatHour(SlotStart(i) / 60, SlotStart(i) % 60) + " - " + FormatHour(SlotEnd(i) / 60, SlotEnd(i) % 60)
  }

  /** Row `i` of the grid: the slot's time label and the cells of the five school days. */
  function GridRow(entries: seq<Entry>, i: int): (row: Row)
    ensures |row.cells| == 5
  {
    Row(SlotLabel(i), RowCells(entries, i))
  }

  /** The cells of row `i`, Monday to Friday. */
  function RowCells(entries: seq<Entry>, i: int): (cells: seq<Cell>)
    ensures |cells| == 5
  {
    [CellFor(entries, 1, i), CellFor(entries, 2, i), CellFor(entries, 3, i),
     CellFor(entries, 4, i), CellFor(entries, 5, i)]
  }

  /** The grid `displayEvents` draws: a row per slot. */
  function GridView(entries: seq<Entry>): (g: seq<Row>)
    ensures |g| == SlotCount
  {
    seq(SlotCount, i requires 0 <= i < SlotCount => GridRow(entries, i))
  }

  /** The inner loop: one cell per school day for the slot of row `i`. */
  method BuildRow(entries: seq<Entry>, i: int) returns (row: Row)
    ensures row == GridRow(entries, i)
  {
    var cells := [];
    ghost var want := RowCells(entries, i);
    for d := 0 to 5
      invariant cells == want[..d]
    {
      GridRowCell(entries, i, d);
      PrefixSnoc(want, d);
      cells := cells + [CellFor(entries, d + 1, i)];
    }
    assert want[..5] == want;
    row := Row(SlotLabel(i), cells);
  }

  /** The grid loop: a row per half-hour slot. */
  method BuildGrid(entries: seq<Entry>) returns (rows: seq<Row>)
    ensures rows == GridView(entries)
  {
    rows := [];
    ghost var want := GridView(entries);
    var i := 0;
    while i < SlotCount
      invariant 0 <= i <= SlotCount
      invariant rows == want[..i]
    {
      var row := BuildRow(entries, i);
      PrefixSnoc(want, i);
      rows := rows + [row];
      i := i + 1;
    }
    assert want[..SlotCount] == want;
  }

  /** The grid has a row per slot, labelled with the slot's times, each with the five day cells. */
  lemma GridShape(entries: seq<Entry>, i: int, d: int)
    requires 0 <= i < SlotCount && 0 <= d < 5
    ensures |GridView(entries)| == SlotCount
    ensures GridView(entries)[i].timeLabel == SlotLabel(i) && |GridView(entries)[i].cells| == 5
    ensures GridView(entries)[i].cells[d] == CellFor(entries, d + 1, i)
  {
    GridRowCell(entries, i, d);
    assert GridRow(entries, i).cells == RowCells(entries, i);
  }

  /** Column `d` of row `i` is the cell of weekday `d + 1`. */
  lemma GridRowCell(entries: seq<Entry>, i: int, d: int)
    requires 0 <= d < 5
    ensures RowCells(entries, i)[d] == CellFor(entries, d + 1, i)
  {
    var cells := RowCells(entries, i);
    if d == 0 { assert cells[0] == CellFor(entries, 1, i); }
    else if d == 1 { assert cells[1] == CellFor(entries, 2, i); }
    else if d == 2 { assert cells[2] == CellFor(entries, 3, i); }
    else if d == 3 { assert cells[3] == CellFor(entries, 4, i); }
    else { assert cells[4] == CellFor(entries, 5, i); }
  }

  /**
   * Each row's label reads `HH:MM - HH:MM`, and its two clocks read back as
   * the first minute of the slot and the first minute after it.
   */
  lemma {:induction false} SlotLabelLayout(i: int)
    requires 0 <= i < SlotCount
    ensures var l := SlotLabel(i);
      && |l| == 13 && l[5..8] == " - "
      && AllDigits(l[0..2]) && AllDigits(l[3..5]) && AllDigits(l[8..10]) && AllDigits(l[11..13])
      && DigitsValue(l[0..2]) * 60 + DigitsValue(l[3..5]) == SlotStart(i)
      && DigitsValue(l[8..10]) * 60 + DigitsValue(l[11..13]) == SlotEnd(i)
  {
    var s, e := SlotStart(i), SlotEnd(i);
    FormatHourLayout(s / 60, s % 60);
    FormatHourLayout(e / 60, e % 60);
    LabelSlices(FormatHour(s / 60, s % 60), FormatHour(e / 60, e % 60));
  }

  /** Where the two clocks sit in a label made of two five-character clocks and " - ". */
  lemma LabelSlices(a: string, b: string)
    requires |a| == 5 && |b| == 5
    ensures var l := a + " - " + b;
      && |l| == 13 && l[0..2] == a[0..2] && l[3..5] == a[3..5] && l[5..8] == " - "
      && l[8..10] == b[0..2] && l[11..13] == b[3..5]
  {
    var l := a + " - " + b;
    assert l[..5] == a && l[8..] == b;
    assert l[0..2] == l[..5][0..2] && l[3..5] == l[..5][3..5];
    assert l[8..10] == l[8..][0..2] && l[11..13] == l[8..][3..5];
  }

  /** The slots do not overlap: an entry passes the test of at most one cell. */
  lemma SlotsDisjoint(x: Entry, d1: int, i: int, d2: int, j: int)
    requires InSlot(x, d1, SlotStart(i), SlotEnd(i)) && InSlot(x, d2, SlotStart(j), SlotEnd(j))
    ensures d1 == d2 && i == j
  {
  }

  /** The row whose half hour holds minute `m` of the school day. */
  function SlotOf(m: int): (i: int)
    requires StartHour * 60 <= m < EndHour * 60
    ensures 0 <= i < SlotCount && SlotStart(i) <= m < SlotEnd(i)
  {
    (m - StartHour * 60) / SlotDuration
  }

  /**
   * Every entry that starts between 08:00 and 20:00 on a school day is in
   * the grid, in the cell of its day and half hour, unless an entry earlier
   * in the input starts in the same cell and is shown instead.
   */
  lemma LessonShown(entries: seq<Entry>, k: int)
    requires 0 <= k < |entries| && entries[k].moment.Some?
    requires 1 <= entries[k].moment.value.weekday <= 5
    requires StartHour * 60 <= entries[k].moment.value.hours * 60 + entries[k].moment.value.minutes < EndHour * 60
    ensures var m := entries[k].moment.value;
      var i := SlotOf(m.hours * 60 + m.minutes);
      var r := FindInSlot(entries, m.weekday, SlotStart(i), SlotEnd(i));
      && r.Some? && r.value <= k
      && CellFor(entries, m.weekday, i) == Lesson(entries[r.value].event)
  {
    var m := entries[k].moment.value;
    var i := SlotOf(m.hours * 60 + m.minutes);
    assert InSlot(entries[k], m.weekday, SlotStart(i), SlotEnd(i));
  }

  // --------------------------------------------------------------- mobile

  /** Every event has a start token, which each day's filter reads without a test. */
  predicate AllStart(entries: seq<Entry>)
  {
    forall k :: 0 <= k < |entries| ==> entries[k].event.start.Some?
  }

  /** The mobile view's filter: the start is a date on weekday `day`. */
  predicate OnDay(x: Entry, day: int)
  {
    x.moment.Some? && x.moment.value.weekday == day
  }

  /** The sort key, the time value of the start; every entry the filter keeps has one. */
  function Key(x: Entry): int
  {
    if x.moment.Some? then x.moment.value.time else 0
  }

  /** The entries of weekday `day`, in input order. */
  function DayEntries(entries: seq<Entry>, day: int): (r: seq<Entry>)
    ensures forall x :: x in r <==> x in entries && OnDay(x, day)
    ensures forall k :: 0 <= k < |r| ==> OnDay(r[k], day)
    decreases |entries|
  {
    if entries == [] then []
    else
      var rest := DayEntries(entries[1..], day);
      assert entries == [entries[0]] + entries[1..];
      if OnDay(entries[0], day) then [entries[0]] + rest else rest
  }

  /** Each entry of the day appears as often as in the input, every other entry not at all. */
  lemma {:induction false} DayEntriesCount(entries: seq<Entry>, day: int, x: Entry)
    ensures multiset(DayEntries(entries, day))[x] == if OnDay(x, day) then multiset(entries)[x] else 0
    decreases |entries|
  {
    if entries != [] {
      var head, tail := entries[0], entries[1..];
      DayEntriesCount(tail, day, x);
      assert entries == [head] + tail;
      assert multiset(entries) == multiset([head]) + multiset(tail);
      var rest := DayEntries(tail, day);
      if OnDay(head, day) {
        assert DayEntries(entries, day) == [head] + rest;
        assert multiset(DayEntries(entries, day)) == multiset([head]) + multiset(rest);
      } else {
        assert DayEntries(entries, day) == rest;
      }
    }
  }

  /** The day's filter commutes with concatenation, so the day's entries keep their input order. */
  lemma {:induction false} DayEntriesAppend(a: seq<Entry>, b: seq<Entry>, day: int)
    ensures DayEntries(a + b, day) == DayEntries(a, day) + DayEntries(b, day)
    decreases |a|
  {
    if a != [] {
      var ab := a + b;
      assert ab != [] && ab[0] == a[0];
      assert ab[1..] == a[1..] + b;
      DayEntriesAppend(a[1..], b, day);
      var rest := DayEntries(ab[1..], day);
      assert DayEntries(ab, day) == if OnDay(a[0], day) then [a[0]] + rest else rest;
      assert DayEntries(a, day) == if OnDay(a[0], day) then [a[0]] + DayEntries(a[1..], day) else DayEntries(a[1..], day);
    } else {
      assert a + b == b;
    }
  }

  predicate Sorted(s: seq<Entry>)
  {
    forall i, j :: 0 <= i < j < |s| ==> Key(s[i]) <= Key(s[j])
  }

  /** `x` placed after every element whose key is not greater than its own. */
  function Insert(x: Entry, s: seq<Entry>): (r: seq<Entry>)
    ensures multiset(r) == multiset(s) + multiset{x}
    decreases |s|
  {
    if s == [] || Key(s[|s| - 1]) <= Key(x) then s + [x]
    else
      assert s == s[..|s| - 1] + [s[|s| - 1]];
      Insert(x, s[..|s| - 1]) + [s[|s| - 1]]
  }

  /** Inserting into a sorted sequence keeps it sorted. */
  lemma {:induction false} InsertSorted(x: Entry, s: seq<Entry>)
    requires Sorted(s)
    ensures Sorted(Insert(x, s))
    decreases |s|
  {
    if s != [] && Key(s[|s| - 1]) > Key(x) {
      var front, last := s[..|s| - 1], s[|s| - 1];
      var init := Insert(x, front);
      assert Sorted(front);
      InsertSorted(x, front);
      forall k | 0 <= k < |init| ensures Key(init[k]) <= Key(last) {
        assert init[k] in multiset(front) + multiset{x};
        if init[k] != x {
          var j :| 0 <= j < |front| && front[j] == init[k];
          assert s[j] == front[j];
        }
      }
      SortedSnoc(init, last);
    } else if s != [] {
      forall k | 0 <= k < |s| ensures Key(s[k]) <= Key(x) {
        assert Key(s[k]) <= Key(s[|s| - 1]);
      }
      SortedSnoc(s, x);
    }
  }

  /** An element no smaller than every element of a sorted sequence extends it sorted. */
  lemma SortedSnoc(s: seq<Entry>, x: Entry)
    requires Sorted(s)
    requires forall k :: 0 <= k < |s| ==> Key(s[k]) <= Key(x)
    ensures Sorted(s + [x])
  {
    var r := s + [x];
    forall i, j | 0 <= i < j < |r| ensures Key(r[i]) <= Key(r[j]) {
      assert r[i] == s[i];
      if j < |s| { assert r[j] == s[j]; }
    }
  }

  /**
   * `.sort((a, b) => timeA - timeB)`: ascending by start, a permutation of
   * its input, and stable (see SortStable), as the ECMAScript sort is.
   */
  function SortByStart(s: seq<Entry>): (r: seq<Entry>)
    ensures multiset(r) == multiset(s)
    ensures Sorted(r)
    decreases |s|
  {
    if s == [] then []
    else
      assert s == s[..|s| - 1] + [s[|s| - 1]];
      var sorted := SortByStart(s[..|s| - 1]);
      InsertSorted(s[|s| - 1], sorted);
      Insert(s[|s| - 1], sorted)
  }

  /** The entries with sort key `key`, in their order. */
  function WithKey(s: seq<Entry>, key: int): seq<Entry>
    decreases |s|
  {
    if s == [] then []
    else WithKey(s[..|s| - 1], key) + (if Key(s[|s| - 1]) == key then [s[|s| - 1]] else [])
  }

  /** Appending an entry adds it to the entries of its own key only. */
  lemma WithKeySnoc(s: seq<Entry>, y: Entry, key: int)
    ensures WithKey(s + [y], key) == WithKey(s, key) + (if Key(y) == key then [y] else [])
  {
    assert (s + [y])[..|s|] == s;
  }

  /** Inserting `x` puts it after every entry of its key, and moves no entry past another of the same key. */
  lemma {:induction false} InsertStable(x: Entry, s: seq<Entry>, key: int)
    ensures WithKey(Insert(x, s), key) == WithKey(s, key) + (if Key(x) == key then [x] else [])
    decreases |s|
  {
    if s == [] || Key(s[|s| - 1]) <= Key(x) {
      WithKeySnoc(s, x, key);
    } else {
      var init, last := s[..|s| - 1], s[|s| - 1];
      assert s == init + [last];
      var r := Insert(x, init);
      assert Insert(x, s) == r + [last];
      InsertStable(x, init, key);
      WithKeySnoc(r, last, key);
      WithKeySnoc(init, last, key);
      if Key(x) == key {
        assert Key(last) != key;
      }
    }
  }

  /** Stability: the entries that share a start time keep their input order. */
  lemma {:induction false} SortStable(s: seq<Entry>, key: int)
    ensures WithKey(SortByStart(s), key) == WithKey(s, key)
    decreases |s|
  {
    if s != [] {
      SortStable(s[..|s| - 1], key);
      InsertStable(s[|s| - 1], SortByStart(s[..|s| - 1]), key);
    }
  }

  /** A lesson of the mobile list: title, location and start clock. */
  datatype MobileLesson = MobileLesson(title: string, location: string, time: string)

  /** A day header and the lessons under it. */
  datatype DayBlock = DayBlock(name: string, lessons: seq<MobileLesson>)

  /** The lesson written for an entry whose start is a date. */
  function ToMobile(x: Entry): MobileLesson
    requires x.moment.Some?
  {
    var e := x.event;
    MobileLesson(Show(e.subject) + " " + Show(e.classNumber),
                 if e.additionalInfo.Some? && e.additionalInfo.value != "" then e.additionalInfo.value else "",
                 x.moment.value.clock)
  }

  /** The lessons written for entries, in their order. */
  function MobileLessons(s: seq<Entry>): (r: seq<MobileLesson>)
    requires forall k :: 0 <= k < |s| ==> s[k].moment.Some?
    ensures |r| == |s|
  {
    if s == [] then [] else MobileLessons(s[..|s| - 1]) + [ToMobile(s[|s| - 1])]
  }

  /** Lesson `k` of the list is the one written for entry `k`. */
  lemma {:induction false} MobileLessonsAt(s: seq<Entry>, k: int)
    requires forall j :: 0 <= j < |s| ==> s[j].moment.Some?
    requires 0 <= k < |s|
    ensures MobileLessons(s)[k] == ToMobile(s[k])
    decreases |s|
  {
    if k < |s| - 1 {
      MobileLessonsAt(s[..|s| - 1], k);
    }
  }

  /** Writing one more entry appends its lesson. */
  lemma MobileLessonsSnoc(s: seq<Entry>, j: int)
    requires forall k :: 0 <= k < |s| ==> s[k].moment.Some?
    requires 0 <= j < |s|
    ensures MobileLessons(s[..j + 1]) == MobileLessons(s[..j]) + [ToMobile(s[j])]
  {
    var next := s[..j + 1];
    assert next[..j] == s[..j] && next[j] == s[j];
  }

  /** The entries of day `day` in the order the mobile list shows them. */
  function SortedDay(entries: seq<Entry>, day: int): (r: seq<Entry>)
    ensures Sorted(r) && multiset(r) == multiset(DayEntries(entries, day))
    ensures forall k :: 0 <= k < |r| ==> OnDay(r[k], day) && r[k] in entries
  {
    var r := SortByStart(DayEntries(entries, day));
    assert forall k :: 0 <= k < |r| ==> r[k] in multiset(DayEntries(entries, day));
    r
  }

  /** The block of school day `dayIndex` (0 is Monday), absent when the day has no lessons. */
  function DayBlockFor(entries: seq<Entry>, dayIndex: int): seq<DayBlock>
    requires 0 <= dayIndex < 5
  {
    var sorted := SortedDay(entries, dayIndex + 1);
    if |sorted| > 0 then [DayBlock(DayNames[dayIndex], MobileLessons(sorted))] else []
  }

  /** A day gives at most one block, named after the day and not empty. */
  lemma DayBlockShape(entries: seq<Entry>, dayIndex: int)
    requires 0 <= dayIndex < 5
    ensures |DayBlockFor(entries, dayIndex)| <= 1
    ensures WellShaped(DayBlockFor(entries, dayIndex))
  {
    var sorted := SortedDay(entries, dayIndex + 1);
    if |sorted| > 0 {
      assert DayNames[dayIndex] in DayNames;
      SingleBlock(DayNames[dayIndex], MobileLessons(sorted));
    }
  }

  lemma SingleBlock(name: string, lessons: seq<MobileLesson>)
    requires name in DayNames && |lessons| > 0
    ensures WellShaped([DayBlock(name, lessons)])
  {
  }

  /** The block of each school day, Monday first: one block for a day with lessons, none otherwise. */
  function PerDay(entries: seq<Entry>): (days: seq<seq<DayBlock>>)
    ensures |days| == 5
  {
    seq(5, d requires 0 <= d < 5 => DayBlockFor(entries, d))
  }

  /** The indices before `n` of the days that have a block, in increasing order. */
  function DaysWith(perDay: seq<seq<DayBlock>>, n: nat): (days: seq<int>)
    requires n <= |perDay|
    ensures forall i :: 0 <= i < |days| ==> 0 <= days[i] < n
    ensures forall i, j :: 0 <= i < j < |days| ==> days[i] < days[j]
    ensures forall d :: d in days <==> 0 <= d < n && perDay[d] != []
  {
    if n == 0 then []
    else DaysWith(perDay, n - 1) + (if perDay[n - 1] != [] then [n - 1] else [])
  }

  /**
   * The blocks of the first `n` school days: at most `n`, each named after
   * a school day and none empty; block `b` is the block of the `b`-th day
   * with lessons, so the days come in order from Monday.
   */
  function BlocksUpTo(entries: seq<Entry>, n: nat): (r: seq<DayBlock>)
    requires n <= 5
    ensures |r| <= n
    ensures WellShaped(r)
    ensures |r| == |DaysWith(PerDay(entries), n)|
    ensures forall b :: 0 <= b < |r| ==> PerDay(entries)[DaysWith(PerDay(entries), n)[b]] == [r[b]]
  {
    if n == 0 then []
    else
      var prev := BlocksUpTo(entries, n - 1);
      NextDayBlocks(entries, n, prev);
      prev + DayBlockFor(entries, n - 1)
  }

  lemma NextDayBlocks(entries: seq<Entry>, n: nat, prev: seq<DayBlock>)
    requires 1 <= n <= 5 && |prev| <= n - 1 && WellShaped(prev)
    requires |prev| == |DaysWith(PerDay(entries), n - 1)|
    requires forall b :: 0 <= b < |prev| ==> PerDay(entries)[DaysWith(PerDay(entries), n - 1)[b]] == [prev[b]]
    ensures var r := prev + DayBlockFor(entries, n - 1);
      && |r| <= n && WellShaped(r) && |r| == |DaysWith(PerDay(entries), n)|
      && forall b :: 0 <= b < |r| ==> PerDay(entries)[DaysWith(PerDay(entries), n)[b]] == [r[b]]
  {
    var last := DayBlockFor(entries, n - 1);
    DayBlockShape(entries, n - 1);
    WellShapedAppend(prev, last);
    assert PerDay(entries)[n - 1] == last;
    BlocksStep(PerDay(entries), n, prev, last);
  }

  /** One more day appends that day's block, if any, and that day to the days with blocks. */
  lemma BlocksStep(perDay: seq<seq<DayBlock>>, n: nat, prev: seq<DayBlock>, last: seq<DayBlock>)
    requires 1 <= n <= |perDay| && last == perDay[n - 1] && |last| <= 1
    requires |prev| == |DaysWith(perDay, n - 1)|
    requires forall b :: 0 <= b < |prev| ==> perDay[DaysWith(perDay, n - 1)[b]] == [prev[b]]
    ensures |prev + last| == |DaysWith(perDay, n)|
    ensures forall b :: 0 <= b < |prev + last| ==> perDay[DaysWith(perDay, n)[b]] == [(prev + last)[b]]
  {
    var days, before := DaysWith(perDay, n), DaysWith(perDay, n - 1);
    assert days == before + (if last != [] then [n - 1] else []);
    forall b | 0 <= b < |prev + last| ensures perDay[days[b]] == [(prev + last)[b]] {
      if b < |prev| {
        assert (prev + last)[b] == prev[b] && days[b] == before[b];
      } else {
        assert (prev + last)[b] == last[0] && days[b] == n - 1;
      }
    }
  }

  /** Every block named after a school day and not empty. */
  predicate WellShaped(blocks: seq<DayBlock>)
  {
    forall b :: 0 <= b < |blocks| ==> blocks[b].name in DayNames && |blocks[b].lessons| > 0
  }

  lemma WellShapedAppend(a: seq<DayBlock>, c: seq<DayBlock>)
    requires WellShaped(a) && WellShaped(c)
    ensures WellShaped(a + c)
  {
    forall b | 0 <= b < |a + c| ensures (a + c)[b].name in DayNames && |(a + c)[b].lessons| > 0 {
      if b < |a| { assert (a + c)[b] == a[b]; } else { assert (a + c)[b] == c[b - |a|]; }
    }
  }

  /** A school day has a block exactly when some entry starts on it, with one lesson per such entry. */
  lemma DayBlockPresent(entries: seq<Entry>, dayIndex: int)
    requires 0 <= dayIndex < 5
    ensures DayBlockFor(entries, dayIndex) != [] <==> exists k :: 0 <= k < |entries| && OnDay(entries[k], dayIndex + 1)
    ensures DayBlockFor(entries, dayIndex) != [] ==>
      DayBlockFor(entries, dayIndex)[0].name == DayNames[dayIndex]
      && |DayBlockFor(entries, dayIndex)[0].lessons| == |DayEntries(entries, dayIndex + 1)|
  {
    var day := DayEntries(entries, dayIndex + 1);
    var sorted := SortedDay(entries, dayIndex + 1);
    assert |sorted| == |multiset(sorted)| == |multiset(day)| == |day|;
    if exists k :: 0 <= k < |entries| && OnDay(entries[k], dayIndex + 1) {
      var k :| 0 <= k < |entries| && OnDay(entries[k], dayIndex + 1);
      assert entries[k] in day;
    }
  }

  /** The days the list shows are the school days on which some entry starts. */
  lemma MobileDays(entries: seq<Entry>, dayIndex: int)
    requires 0 <= dayIndex < 5
    ensures dayIndex in DaysWith(PerDay(entries), 5) <==> exists k :: 0 <= k < |entries| && OnDay(entries[k], dayIndex + 1)
  {
    DayBlockPresent(entries, dayIndex);
    assert PerDay(entries)[dayIndex] == DayBlockFor(entries, dayIndex);
  }

  /** A lesson of a school day without an end: `convertICalDateToISO(event.end)` throws. */
  predicate MissingEnd(entries: seq<Entry>)
  {
    exists k :: 0 <= k < |entries| && entries[k].event.end.None? && entries[k].moment.Some?
      && 1 <= entries[k].moment.value.weekday <= 5
  }

  /**
   * The mobile list, or None where `displayEvents` throws a TypeError: an
   * event without a start (read by every day's filter), or a lesson of a
   * school day without an end.
   */
  function MobileView(entries: seq<Entry>): (r: Option<seq<DayBlock>>)
    ensures r.None? <==> (exists k :: 0 <= k < |entries| && entries[k].event.start.None?) || MissingEnd(entries)
    ensures r.Some? ==> |r.value| <= 5 && WellShaped(r.value) && |r.value| == |DaysWith(PerDay(entries), 5)|
    ensures r.Some? ==> forall b :: 0 <= b < |r.value| ==> PerDay(entries)[DaysWith(PerDay(entries), 5)[b]] == [r.value[b]]
  {
    if !AllStart(entries) || MissingEnd(entries) then None
    else Some(BlocksUpTo(entries, 5))
  }

  /** Each lesson of the day is among the day's sorted entries. */
  lemma SortedDayCovers(entries: seq<Entry>, day: int, k: int)
    requires 0 <= k < |entries| && OnDay(entries[k], day)
    ensures entries[k] in SortedDay(entries, day)
  {
    assert entries[k] in DayEntries(entries, day);
    assert entries[k] in multiset(SortedDay(entries, day));
  }

  /** Every lesson of weekday `day` has an end. */
  predicate DayHasEnds(entries: seq<Entry>, day: int)
  {
    forall k :: 0 <= k < |entries| && OnDay(entries[k], day) ==> entries[k].event.end.Some?
  }

  /** A school day with a lesson without an end makes the list throw. */
  lemma MissingEndOn(entries: seq<Entry>, day: int)
    requires 1 <= day <= 5 && !DayHasEnds(entries, day)
    ensures MissingEnd(entries)
  {
    var k :| 0 <= k < |entries| && OnDay(entries[k], day) && entries[k].event.end.None?;
  }

  /** When each school day's lessons have ends, no lesson of a school day lacks one. */
  lemma NoMissingEnd(entries: seq<Entry>)
    requires forall d :: 1 <= d <= 5 ==> DayHasEnds(entries, d)
    ensures !MissingEnd(entries)
  {
    forall k | 0 <= k < |entries| && entries[k].moment.Some? && 1 <= entries[k].moment.value.weekday <= 5
      ensures entries[k].event.end.Some?
    {
      assert DayHasEnds(entries, entries[k].moment.value.weekday);
    }
  }

  /**
   * The lessons of one day in their sorted order, reading each lesson's end
   * on the way; `ok` is false where reading an end throws.
   */
  method WriteLessons(sorted: seq<Entry>) returns (ok: bool, lessons: seq<MobileLesson>)
    requires forall k :: 0 <= k < |sorted| ==> sorted[k].moment.Some?
    ensures ok <==> forall k :: 0 <= k < |sorted| ==> sorted[k].event.end.Some?
    ensures ok ==> lessons == MobileLessons(sorted)
  {
    lessons := [];
    for j := 0 to |sorted|
      invariant lessons == MobileLessons(sorted[..j])
      invariant forall k :: 0 <= k < j ==> sorted[k].event.end.Some?
    {
      if sorted[j].event.end.None? {
        return false, [];
      }
      MobileLessonsSnoc(sorted, j);
      lessons := lessons + [ToMobile(sorted[j])];
    }
    assert sorted[..|sorted|] == sorted;
    ok := true;
  }

  /** The work for one school day: filter, sort, and write the day's block. */
  method BuildDay(entries: seq<Entry>, dayIndex: int) returns (ok: bool, block: seq<DayBlock>)
    requires 0 <= dayIndex < 5
    ensures ok <==> DayHasEnds(entries, dayIndex + 1)
    ensures ok ==> block == DayBlockFor(entries, dayIndex)
  {
    var sorted := SortedDay(entries, dayIndex + 1);
    var lessons;
    ok, lessons := WriteLessons(sorted);
    if !ok {
      var j :| 0 <= j < |sorted| && sorted[j].event.end.None?;
      assert sorted[j] in entries && OnDay(sorted[j], dayIndex + 1);
      return false, [];
    }
    forall k | 0 <= k < |entries| && OnDay(entries[k], dayIndex + 1)
      ensures entries[k].event.end.Some?
    {
      SortedDayCovers(entries, dayIndex + 1, k);
    }
    block := if |sorted| > 0 then [DayBlock(DayNames[dayIndex], lessons)] else [];
  }

  /** The mobile loop over the five school days. */
  method BuildMobile(entries: seq<Entry>) returns (view: Option<seq<DayBlock>>)
    ensures view == MobileView(entries)
  {
    if exists k :: 0 <= k < |entries| && entries[k].event.start.None? {
      return None;
    }
    var blocks := [];
    var dayIndex := 0;
    while dayIndex < 5
      invariant 0 <= dayIndex <= 5
      invariant blocks == BlocksUpTo(entries, dayIndex)
      invariant forall d :: 1 <= d <= dayIndex ==> DayHasEnds(entries, d)
    {
      var ok, block := BuildDay(entries, dayIndex);
      if !ok {
        MissingEndOn(entries, dayIndex + 1);
        return None;
      }
      blocks := blocks + block;
      dayIndex := dayIndex + 1;
    }
    NoMissingEnd(entries);
    view := Some(blocks);
  }
}
