# Lesson timetable: a verified model

This project models the data pipeline of a school timetable page, `script.js`. The page takes a
calendar feed in iCalendar form, the VEVENT components of section 3.6.1 of RFC 5545. It
reads each lesson out of the feed and keeps the lessons of one week. It then draws them twice:
as a desktop grid of half-hour rows by the five school days, and as a mobile list with one block
per school day, sorted by start time.

Modules, in pipeline order:

- `Text`: the ECMAScript string built-ins the page relies on. These are `startsWith`,
  `endsWith`, `indexOf`, `substring`, `replace` with a string pattern, `split` with a string
  separator, `trim`, the global deletion `/h\d+/g`, and decimal numerals.
- `Calendar`:
  - day numbers from 1970-01-01 in the proleptic Gregorian calendar, and weekdays;
  - `getStartOfWeek`;
  - `convertICalDateToISO`, which rewrites the compact DATE-TIME form of section 3.3.5 of
    RFC 5545 (`YYYYMMDD[THHMMSS][Z]`) by character position;
  - the reading of the ISO form by `new Date(...)`;
  - `formatHour` and `formatTime`, with `slice` (`Calendar.Slice`), which only `formatTime` uses.
- `Feed`: `parseICalendar` and the looser `parseICS`.
  - Both are line-driven state machines with one event accumulator.
  - `END:VEVENT` pushes the accumulator object itself, so later field lines still change the
    pushed event. The parser state records how many trailing entries are that object.
  - The two `forEach` loops have the same shape and differ only in their line tests. They are
    one method, `ParseLines`, proved equal to a fold (`Run`) over the lines.
- `Week`: `filterEventsByCurrentWeek` and `filterEventsByWeek`, with the current date as a
  parameter.
- `Schedule`: the computation inside `displayEvents`.
  - The grid loops and the mobile loops are methods, proved against `GridView` and
    `MobileView`.
  - Each event's start is decoded once into an `Entry`: its weekday, hours, minutes, time value
    and start clock.
- `Display`: `displayEvents` as a whole. It returns `None` where the page throws a TypeError.
  The timetable is the `MobileView` and the `GridView` of the events' entries. The lemmas here
  state the grid and the list in terms of the events and the dates of their start tokens.
- `Navigation`: the `currentWeekOffset` state and its two buttons, as a class over an
  already parsed event sequence.
- `Notes`: `clearNotesOnNewWeek` over the page's storage, seen as a `map<string, string>`. The
  week number is an input.
- `Scenarios`: the summary forms of the feed, worked through the decomposition.

Points where the code behaves differently from what a reader might expect; the model follows the code:

- The week window ends at midnight at the start of Sunday, not at the end of Sunday.
  - `endOfWeek` is a copy of the Monday's midnight, moved on six days with `setDate`.
  - So a lesson on Sunday after 00:00:00 is in no week (`Week.SundayGap`).
- `"h2hv1".replace(/h\d+/g, '')` is `"hv1"`: the `h` of `hv1` is not followed by a digit
  (`Scenarios.StripExample`).
- `convertICalDateToISO` appends `Z` exactly when the token ends with `Z`. This test is on the
  whole token, whatever the character positions read (`Calendar.ToIsoLayout`).
- `loadEventsForWeek` (script.js:446-450) reads `savedCalendarCode`. That name is declared only
  as a local `const` inside two `DOMContentLoaded` callbacks (script.js:231 and script.js:282),
  so the call at script.js:447 throws a ReferenceError before `loadICalendarFromURL` runs, and
  no Promise ever reaches the filter. The model filters an already parsed event sequence
  instead (`Navigation.LoadEventsForWeek`).
- `displayEvents` decodes `e.start` in the mobile filter without testing it, and `event.end`
  while writing a lesson. An event without a start therefore throws. So does a lesson of Monday
  to Friday without an end. The model gives no timetable in that case.

## Model

| member | source | states |
|---|---|---|
| Text.IndexOf | script.js:81 | `indexOf` gives the first position where the pattern occurs, and None (−1) exactly when it occurs nowhere |
| Text.Substring | script.js:77-84 | `substring(a, b)` in the order ECMAScript gives: each bound is clamped to the string, and the smaller clamped bound starts the slice, the larger ends it |
| Text.Clamp | script.js:77-84 | a bound below 0 becomes 0, one past the length becomes the length, and one in range is kept |
| Text.ReplaceFirst | script.js:25-40 | `replace` with a string pattern leaves a text without the pattern unchanged; otherwise it puts the replacement in place of the first occurrence and keeps everything before and after it |
| Text.ReplacePrefix | script.js:25 | `replace("SUMMARY:", "")` on a line that starts with the prefix leaves the rest of the line |
| Text.Split | script.js:27 | the parts of `split(" - ")` hold no separator and join back to the input |
| Text.SplitHead | script.js:27 | the first part is the whole text exactly when the separator does not occur; otherwise the text starts with the first part and a separator |
| Text.SplitPartsAreSegments | script.js:27 | every part of a split but the last is a segment: the separator is not found starting inside it, even with the next separator after it |
| Text.SplitCons | script.js:27 | a leading part that the separator cannot start inside of comes off the front of the split |
| Text.Trim | script.js:25 | the trimmed text neither starts nor ends with whitespace |
| Text.TrimPadded | script.js:30 | trim removes exactly the whitespace around a core that starts and ends with non-whitespace |
| Text.StripClassTokens | script.js:30 | after `replace(/h\d+/g, '')` no `h` is directly followed by a digit, the result is no longer than the input, and every character other than `h` and digits keeps its count |
| Text.StripKeepsHead | script.js:30 | a first character that does not start a token stays in front of the stripped rest; with `StripLeadingToken` this fixes the result on every input |
| Text.StripNoToken | script.js:30 | a text without any `h<digit>` is left unchanged |
| Text.StripLeadingToken | script.js:30 | an `h` and the maximal run of digits after it are deleted together |
| Text.ParseNat | script.js:215 | a stored text that `JSON.parse` reads as a week number is the canonical numeral of that number |
| Text.ParseNatToString | script.js:215-218 | the week number written by `JSON.stringify` is read back by `JSON.parse` |
| Calendar.DayNumberEpoch | script.js:62-66 | day 0 is 1970-01-01 |
| Calendar.NextDayInMonth | script.js:65 | day numbers of consecutive days of a month are consecutive, so `setDate` may run past the month |
| Calendar.NextMonth | script.js:65 | the first of a month follows the last day of the month before |
| Calendar.NextYear | script.js:65 | January 1 follows December 31 of the year before |
| Calendar.WeekdayShift | script.js:455 | moving a day by whole weeks keeps its weekday |
| Calendar.AccessorsOfFields | script.js:164-166 | for a time from 00:00 to 23:59:59, `getDay`, `getHours` and `getMinutes` give the weekday of the date and the hour and minute fields |
| Calendar.EndOfDay | script.js:164-166 | 24:00:00 is 00:00 of the following day |
| Calendar.StartOfWeekDay | script.js:61-68 | the week's start is a Monday no later than the day and at most six days before it; a Sunday goes back six days, a Monday stays |
| Calendar.StartOfWeekUnique | script.js:61-68 | that Monday is the only Monday among the six days up to the day |
| Calendar.StartOfWeekIdempotent | script.js:61-68 | applying `getStartOfWeek` twice gives the same Monday as once |
| Calendar.StartOfWeek | script.js:61-68 | the instant lies in the seven days that start at local midnight of the returned Monday |
| Calendar.Slice | script.js:400 | `slice(a, b)` within the string's bounds is the plain slice |
| Calendar.ToIso | script.js:76-93 | a `Z` at the end of the token is kept at the end of the rewrite; a token of eight or more characters has its characters 0–3, 4–5 and 6–7 as the date and a `T` after it, and the clock `00:00:00` when it holds no `T` |
| Calendar.ToIsoLayout | script.js:76-93 | characters 0–3, 4–5 and 6–7 become year, month and day. The time is characters 9–10, 11–12 and 13–14 when the token holds a `T`, and `00:00:00` otherwise. A `Z` is appended exactly when the token ends with one |
| Calendar.ToIsoEncode | script.js:76-93 | the rewrite of the compact form of a date is the date's ISO string |
| Calendar.ParseIso | script.js:56 | a string `new Date` reads is a valid date with a four-digit year, and its ISO string is the string read |
| Calendar.ParseIsoString | script.js:56 | every valid date with a four-digit year is read back from its ISO string |
| Calendar.Decode | script.js:56 | a token that decodes gives a valid date with a four-digit year whose ISO string is the token's rewrite |
| Calendar.DecodeEmpty | script.js:55-56 | an empty token reads as no date |
| Calendar.DecodeEncode | script.js:56 | round trip: decoding the compact DATE-TIME form of a valid date gives the date |
| Calendar.DecodeDateOnly | script.js:80 | a token without a time part decodes to midnight of its day |
| Calendar.EncodeFields | script.js:77-85 | the compact form has its fields at the positions the rewrite reads, a `T`, and a final `Z` exactly in UTC |
| Calendar.DateOnlyFields | script.js:77-80 | a date-only token has its fields at 0–3, 4–5 and 6–7, no `T`, and a final `Z` exactly in UTC |
| Calendar.PadClockTwoDigits | script.js:71-72 | a field from 0 to 99 is written as exactly two digits, zero-padded below 10 |
| Calendar.FormatHour | script.js:70-74 | for fields from 0 to 99 the clock is the two zero-padded digits of the hours, `:`, and the two zero-padded digits of the minutes |
| Calendar.FormatHourLayout | script.js:70-74 | `formatHour` of fields below 100 is two digits, `:`, two digits, and the digits read back as the fields |
| Calendar.FormatTime | script.js:399-401 | on a token of 13 or more characters, characters 9–10, `:`, characters 11–12; on a token of at most 9 characters only `:` |
| Calendar.FormatTimeEncode | script.js:399-401 | `formatTime` of a compact DATE-TIME shows the same clock as `formatHour` of its hours and minutes |
| Feed.SplitSummary | script.js:27-35 | the subject and the extra information hold no separator; the subject is the summary up to its first separator, and the whole summary exactly when there is none |
| Feed.SplitTwoParts | script.js:27 | two leading parts without a separator inside come off the front of the summary's split |
| Feed.SplitSummaryThree | script.js:28-31 | with three or more parts the subject is part 0. The class is part 1 with every `h<digits>` removed, then trimmed. The extra information is part 2 only |
| Feed.SplitSummaryExactlyThree | script.js:28-31 | with exactly three parts the extra information is the whole third part |
| Feed.SplitSummaryTwo | script.js:32-35 | with two parts the class is part 1 as written and the extra information is empty |
| Feed.SplitSummaryOne | script.js:32-35 | with one part the class and the extra information are empty |
| Feed.SplitSummaryCovers | script.js:27-35 | every summary has one of the three shapes above: one part without a separator, two parts, or two leading parts, a separator and the rest |
| Feed.SplitSummaryCases | script.js:27-35 | for every summary, the subject is part 0; with three or more parts the class is part 1 stripped and trimmed and the extra information part 2; with two, part 1 and ""; with one, "" and "" |
| Feed.ClassifyStrict | script.js:20-41 | each of `BEGIN:VEVENT`, `END:VEVENT`, `SUMMARY:`, `DTSTART:` and `DTEND:` gives its kind exactly when the line starts with it, so any other line is `Other`; a summary, start or end line carries the rest of the line after its name and colon |
| Feed.ColonField | script.js:376 | `split(":")[1]` is absent exactly when the line has no colon, and holds no colon when present |
| Feed.ColonFieldOf | script.js:376 | after a colon-free name and a colon, the field is the colon-free text that follows, whether or not a further colon comes after it |
| Feed.ClassifyLoose | script.js:371-381 | each of `BEGIN:VEVENT`, `SUMMARY:`, `DTSTART`, `DTEND` and `END:VEVENT` gives its kind exactly when the line starts with it, so any other line is `Other`; a summary line carries the rest after `SUMMARY:`, and a start or end line the `split(":")[1]` field |
| Feed.LooseDateLines | script.js:375-378 | `DTSTART` and `DTEND` lines with parameters before the colon carry the value after the colon |
| Feed.Run | script.js:19-42 | the state after any lines keeps the trailing shared entries equal to the accumulator |
| Feed.StepCoherent | script.js:22-23 | pushing the accumulator object, and any later field change, keep the shared entries equal to it |
| Feed.Step | script.js:19-42 | `BEGIN:VEVENT` makes the accumulator `{}` and ends the sharing; `END:VEVENT` pushes the accumulator and shares one more entry; a summary line sets the summary (trimmed and decomposed when strict, as written otherwise), a start or end line its token, and the shared entries show the new accumulator; any other line changes nothing; no line changes the events before the shared entries |
| Feed.EndKind | script.js:22 | both parsers take a line as `END:VEVENT` exactly when it starts with `END:VEVENT` |
| Feed.EventCount | script.js:19-42 | the number of events equals the number of lines that start with `END:VEVENT` |
| Feed.RunAppend | script.js:19-42 | parsing two runs of lines is parsing the first, then the second from there |
| Feed.FieldLinesKeepEvents | script.js:24-41 | field lines change only the accumulator when nothing is shared |
| Feed.BlockAddsOneEvent | script.js:19-42 | a VEVENT block of field lines appends exactly the event its fields build from `{}` |
| Feed.BeginResets | script.js:20-21 | `BEGIN:VEVENT` resets the accumulator to `{}`, ends the sharing and keeps the events |
| Feed.StrictDateLines | script.js:37-41 | `DTSTART:` and `DTEND:` store the rest of the line, undecoded |
| Feed.SummaryLineKind | script.js:24 | both parsers read `SUMMARY:` + t as a summary line carrying t |
| Feed.StrictSummaryLine | script.js:24-36 | `parseICalendar` on `SUMMARY:` + t gives the accumulator the trimmed text with its decomposition, and keeps the shared entries equal to it |
| Feed.LooseSummaryLine | script.js:373-374 | `parseICS` on `SUMMARY:` + t sets the summary to t as written, and keeps the shared entries equal to it |
| Feed.LooseDateSteps | script.js:375-378 | `parseICS` on a `DTSTART` or `DTEND` line with parameters stores the colon-free value after the colon |
| Feed.LooseDateNoColon | script.js:375-378 | `parseICS` on a `DTSTART` or `DTEND` line without a colon sets the property to undefined |
| Feed.UnrecognisedLine | script.js:20-41 | a line is `Other` exactly when it starts with none of the parser's prefixes, and such a line leaves the state as it was |
| Feed.BlockOfThree | script.js:19-42 | a block of three field lines appends the event those lines build from `{}` |
| Feed.StrictBlockEvent | script.js:19-42 | a `SUMMARY:`, `DTSTART:`, `DTEND:` block appends one event: the trimmed summary with subject, class and extra information, and the two tokens as written |
| Feed.LooseBlockEvent | script.js:370-381 | in `parseICS` the same block, with parameters on the date lines, appends the summary as written and the values after the colons |
| Feed.StartLineKind | script.js:37-38 | a `DTSTART:` line is a start line carrying the rest of the line |
| Feed.EndLineKind | script.js:39-40 | a `DTEND:` line is an end line carrying the rest of the line |
| Feed.SplitLines | script.js:16 | `split(/\r?\n/)` gives one line per newline-separated piece, and no line holds a newline |
| Feed.SplitLinesCons | script.js:16 | a line ended by CRLF comes off the front without its carriage return |
| Feed.SplitLinesSingle | script.js:16 | a text without a newline is one line |
| Feed.SplitLinesJoin | script.js:16 | round trip: lines without newlines joined with CRLF split back into the same lines |
| Feed.SetField | script.js:38 | setting a property of the accumulator sets it in every pushed entry that is that object, and in no other |
| Feed.HandleLine | script.js:19-42 | the loop body changes the events, the accumulator and the sharing count as one step of the fold |
| Feed.ParseLines | script.js:19-42 | the `forEach` loop, shared by both parsers, collects the events of the fold over its lines, one per `END:VEVENT` line |
| Feed.ParseICalendar | script.js:14-46 | the collected events are the fold of the steps over `data.split(/\r?\n/)`, one per `END:VEVENT` line |
| Feed.ParseIcs | script.js:366-384 | the collected events are the loose fold over `split("\n")`, one per `END:VEVENT` line |
| Week.StartDate | script.js:55-56 | an event has a date exactly when its start is truthy and its ISO rewrite reads as a valid date |
| Week.FilterWindow | script.js:54-58 | an event is kept exactly when its start is a date inside the inclusive window |
| Week.FilterWindowCount | script.js:54-58 | a kept event appears as often as in the input, any other not at all |
| Week.FilterWindowAppend | script.js:54-58 | filtering commutes with concatenation, so input order is kept |
| Week.WeekStart | script.js:454-455 | the shifted start is a Monday, `7 * offset` days after the current week's Monday |
| Week.FilterEventsByWeek | script.js:452-465 | keeps exactly the events whose start lies in the window of the offset's week, and never one without a start |
| Week.FilterEventsByCurrentWeek | script.js:48-59 | keeps the events of the current week's window; it is the filter at offset 0 |
| Week.InWindowDays | script.js:51-52 | in the window means on Monday to Saturday, or exactly at Sunday's midnight |
| Week.WeekdayStartKept | script.js:452-465 | an event that starts on Monday to Saturday of the offset's week is kept |
| Week.SundayGap | script.js:457-458 | an event that starts on a Sunday after its midnight is kept by no week |
| Week.KeptInOneWeek | script.js:452-465 | no event is kept by two different offsets |
| Week.NextWeekWindow | script.js:455 | the next and the previous offsets filter the window seven days later and earlier |
| Schedule.MomentOf | script.js:164-165 | weekday, hours and minutes are in range, and the clock is `formatHour` of the hours and minutes |
| Schedule.EntryOf | script.js:161-166 | an entry has a moment exactly when its event's start reads as a date, and it is that date's moment |
| Schedule.FindInSlot | script.js:161-167 | `find` gives the first entry that passes the slot test, or none when none does |
| Schedule.CellContents | script.js:161-171 | a cell shows the event of the first entry in its half hour and weekday, and is empty exactly when there is none |
| Schedule.GridView | script.js:144-148 | the grid has `(endHour - startHour) * 2` rows |
| Schedule.BuildRow | script.js:159-187 | the inner loop builds the row's label and the five day cells |
| Schedule.BuildGrid | script.js:148-189 | the outer loop builds the grid, one row per slot |
| Schedule.GridShape | script.js:144-159 | row `i` carries the slot's label and column `d` is the cell of weekday `d + 1` |
| Schedule.SlotLabelLayout | script.js:155-156 | the time label reads `HH:MM - HH:MM`, and its clocks read back as the slot's first minute and the first minute after it |
| Schedule.SlotsDisjoint | script.js:149-150 | an entry passes the test of at most one cell |
| Schedule.SlotOf | script.js:149-150 | minute `m` from 08:00 to 20:00 lies in row `i`, which covers `[480 + 30i, 480 + 30i + 30)` |
| Schedule.LessonShown | script.js:161-167 | an entry starting from 08:00 to 20:00 on a school day is shown in its cell, unless an earlier entry there is shown instead |
| Schedule.DayEntries | script.js:104-107 | the day's filter keeps exactly the entries whose start is a date on that weekday |
| Schedule.DayEntriesCount | script.js:104-107 | an entry on the day appears as often as in the input, any other entry not at all |
| Schedule.DayEntriesAppend | script.js:104-107 | the day's filter commutes with concatenation, so the day's entries keep their input order |
| Schedule.SortByStart | script.js:107-111 | the sort is ascending by start time and a permutation of its input |
| Schedule.SortStable | script.js:107-111 | entries with the same start time keep their input order |
| Schedule.SortedDay | script.js:104-111 | a day's lessons are sorted and are a permutation of the day's filtered entries |
| Schedule.MobileLessonsAt | script.js:119-135 | lesson `k` of a block is the one written for the day's `k`-th sorted entry |
| Schedule.DayBlockShape | script.js:113-117 | a day gives at most one block, named after the day and not empty |
| Schedule.DaysWith | script.js:103-117 | the days with a block, in strictly increasing order from Monday, and exactly those |
| Schedule.BlocksUpTo | script.js:103-138 | the list has at most five blocks, each named after a school day and none empty; block `b` is the whole output of the `b`-th school day, counted from Monday, that has lessons |
| Schedule.MobileDays | script.js:103-119 | the days the list shows are exactly the school days on which some entry starts |
| Schedule.DayBlockPresent | script.js:113-119 | a day has a block exactly when some entry starts on it; the block has the day's name and one lesson per such entry |
| Schedule.MobileView | script.js:103-138 | no list exactly when an event has no start or a school-day lesson has no end; otherwise at most five well-formed blocks, block `b` being the block of the `b`-th day with lessons |
| Schedule.SortedDayCovers | script.js:104-111 | every entry of the day is among the day's sorted lessons |
| Schedule.MissingEndOn | script.js:124 | a lesson without an end on a school day makes the list throw |
| Schedule.NoMissingEnd | script.js:124 | when every school day's lessons have ends, the list does not throw on an end |
| Schedule.WriteLessons | script.js:119-136 | writing a day succeeds exactly when every lesson has an end; the lessons are then the ones the sorted entries give |
| Schedule.BuildDay | script.js:104-137 | one day's work succeeds exactly when its lessons have ends, and then gives the day's block |
| Schedule.BuildMobile | script.js:103-138 | the mobile loop gives the mobile list, or none where it throws |
| Display.TimetableOf | script.js:95-190 | a timetable exists exactly when the list can be written; it is then the mobile list of the events' entries and their 24-row grid |
| Display.DisplayEvents | script.js:95-190 | the page writes the list first and the grid after it |
| Display.ShowCalendar | script.js:44-45 | the end of `parseICalendar` displays the parsed events of the current week |
| Display.EntryInSlot | script.js:161-166 | the slot test on an entry is the slot test on the date of the event's start |
| Display.CellOfEvents | script.js:161-171 | a cell shows the first event, in input order, whose start date lies in the cell's half hour and weekday; it is empty exactly when no event does |
| Display.DisplayFails | script.js:104-124 | `displayEvents` throws exactly when an event has no start, or an event starting on Monday to Friday has no end |
| Display.StartedDisplayFails | script.js:104-124 | when every event has a start, it throws exactly when a lesson of Monday to Friday has no end |
| Display.WeekDisplayFails | script.js:460-464 | after a week filter it throws exactly when a lesson of Monday to Friday has no end |
| Display.MobileBlocks | script.js:102-138 | the list shows at most five blocks, each named after a school day and none empty, and block `b` is the whole block of the `b`-th weekday, from Monday, on which some event starts |
| Display.GridOfEvents | script.js:141-159 | the grid drawn for the events has 24 rows with their labels, and five cells per row, one per school day |
| Navigation.LoadEventsForWeek | script.js:446-450 | the week at the offset is filtered and displayed |
| Navigation.WeekNavigator.constructor | script.js:443 | at page load the offset is 0 and the current week is shown |
| Navigation.WeekNavigator.Next | script.js:432-435 | the next-week button adds one to the offset and shows that week; the events are unchanged |
| Navigation.WeekNavigator.Previous | script.js:437-440 | the previous-week button subtracts one from the offset and shows that week; the events are unchanged |
| Notes.SavedWeek | script.js:215 | an absent week key reads as 0; otherwise a week read is the number whose numeral is stored |
| Notes.AfterWeekCheck | script.js:213-220 | the checked storage records the week; if it still holds notes it is the storage unchanged; no other key is added or removed, and every kept key other than the week key keeps its value |
| Notes.AfterWeekCheckRecords | script.js:213-220 | after the check the week is recorded; the notes are gone unless that week was already recorded, in which case nothing changes |
| Notes.AfterWeekCheckFrame | script.js:216-219 | every other key keeps its value |
| Notes.AfterWeekCheckIdempotent | script.js:213-220 | a second check in the same week changes nothing |
| Notes.NoteStore.ClearNotesOnNewWeek | script.js:213-220 | the storage becomes the checked storage and records the current week |
| Scenarios.StripExample | script.js:30 | `"h2hv1"` with its class tokens removed is `"hv1"` |
| Scenarios.StripAfterDigit | script.js:30 | `"1h2"` with its class tokens removed is `"1"` |
| Scenarios.ThreePartSummary | script.js:27-31 | `"Nederlands - h2hv1 - wtr"` gives subject `Nederlands`, class `hv1` and extra information `wtr` |
| Scenarios.TwoPartSummary | script.js:32-35 | `"Wiskunde - 109"` gives class `109` as written and no extra information |

## Left out

- Network I/O is left out: `loadICalendarFromURL`, the proxy fetch, `getUserIP` and the calendar-code loading. The parsers take the feed text as a parameter.
- The DOM is left out: the page's elements, event listeners, `alert`, `location.reload`, the login and popup handlers, and `renderSchedule`. The grid and the list are values, and `parseICS` returns its events.
- If `displayEvents` throws part way through the list, the page keeps what it has written so far. The model gives no timetable at all in that case.
- The note inputs inside grid cells are left out. So are `saveNote`, `getSavedNote`, `toggleNotesVisibility`, `getNotesVisibility` and the device counter. They are storage glue, and the grid's cell texts do not depend on them.
- `getCurrentWeekNumber` is left out. It uses real-valued millisecond division and `Math.ceil`, so the week number is an input of `ClearNotesOnNewWeek`.
- Host time-zone behaviour is left out: every token is read as if the host's zone were UTC. A trailing `Z` is kept as a UTC tag on the date but never converted. In another zone the page differs from the model in these places, all `new Date` calls on rewritten tokens:
  - the weekday, hour and minute of a `Z` token are the local, shifted fields (script.js:105, script.js:123-124, script.js:164);
  - the sort comparator (script.js:108-110) orders by absolute time, so a `Z` token and a local token with the same digits sort apart;
  - both week filters (script.js:56 and script.js:462) compare absolute instants with the local midnight of the week's Monday.
- The ReferenceError that `loadEventsForWeek` throws at script.js:447 is left out, and so is the Promise that `loadICalendarFromURL` would return. Navigation filters an already parsed sequence, and the current date is a parameter of each step.
- Strings are sequences of Unicode scalar values, where ECMAScript strings are UTF-16 code units. Every prefix and separator the page tests is ASCII. Lengths and positions agree except where a character outside the Basic Multilingual Plane, two code units in ECMAScript, comes before a position that `substring`, `slice` or `trim` reads.
- `settings.js` is left out. It only stores settings and sets CSS properties.
- Notes.SavedWeek: `JSON.parse` of a stored text other than a canonical numeral reads as no week number. This includes text that makes it throw and numerals such as `1e1`. The page only ever stores canonical numerals.
- Calendar.ParseIso: `new Date` is modelled on the `YYYY-MM-DDTHH:MM:SS[Z]` layout only. That is the only layout the rewrite produces for tokens with a valid date. Years outside 0–9999 and extended years are not read. A day past the end of its month, such as `2024-02-30`, reads as no date. Engines differ here: some give Invalid Date, others roll the date over into the next month. The model then drops such an event from its week, where an engine that rolls it over shows it.
- Calendar.DecodeEncode: the round trip is stated for years 0 to 9999 only, because the compact form has a four-digit year field.
