/**
 * Date and time arithmetic of the timetable: the compact iCalendar
 * DATE-TIME form of section 3.3.5 of RFC 5545 (`YYYYMMDD[THHMMSS][Z]`), its
 * rewriting into the ISO form that `new Date(...)` reads, the reading itself,
 * day numbers counted from 1970-01-01 in the proleptic Gregorian calendar,
 * weekdays, the Monday that starts a week, and the clock formatting of the
 * view.
 *
 * All times are wall-clock times: a trailing `Z` is kept as the `utc` tag
 * of a DateTime but never converted to or from a host time zone.
 */
module Calendar {
  import opened Text

  datatype DateTime = DateTime(year: int, month: int, day: int,
                               hour: int, minute: int, second: int, utc: bool)

  const SecondsPerDay := 86400

  predicate IsLeapYear(y: int) { y % 4 == 0 && (y % 100 != 0 || y % 400 == 0) }

  function DaysInMonth(y: int, m: int): (n: nat)
    requires 1 <= m <= 12
    ensures 28 <= n <= 31
  {
    if m == 2 then (if IsLeapYear(y) then 29 else 28)
    else if m == 4 || m == 6 || m == 9 || m == 11 then 30
    else 31
  }

  /** Days of the year `y` that lie before the first of month `m`. */
  function DaysBeforeMonth(y: int, m: int): nat
    requires 1 <= m <= 12
  {
    if m == 1 then 0 else DaysBeforeMonth(y, m - 1) + DaysInMonth(y, m - 1)
  }

  /** The number of leap years in [0, y), negative for negative y. */
  function LeapYearsBefore(y: int): int
  {
    (y + 3) / 4 - (y + 99) / 100 + (y + 399) / 400
  }

  /** Days since 1970-01-01 (day 0), negative before it. */
  function DayNumber(y: int, m: int, d: int): int
    requires 1 <= m <= 12
  {
    365 * y + LeapYearsBefore(y) + DaysBeforeMonth(y, m) + d - 1 - 719528
  }

  lemma DayNumberEpoch()
    ensures DayNumber(1970, 1, 1) == 0
  {
  }

  /** Day numbers count consecutive calendar days: within a month, across months and across years. */
  lemma NextDayInMonth(y: int, m: int, d: int)
    requires 1 <= m <= 12
    ensures DayNumber(y, m, d + 1) == DayNumber(y, m, d) + 1
  {
  }

  lemma NextMonth(y: int, m: int)
    requires 1 <= m < 12
    ensures DayNumber(y, m + 1, 1) == DayNumber(y, m, DaysInMonth(y, m)) + 1
  {
  }

  lemma {:induction false} NextYear(y: int)
    ensures DayNumber(y + 1, 1, 1) == DayNumber(y, 12, 31) + 1
  {
    LeapStep(y);
    DaysBeforeDecember(y);
  }

  lemma LeapStep(y: int)
    ensures LeapYearsBefore(y + 1) - LeapYearsBefore(y) == if IsLeapYear(y) then 1 else 0
  {
    CeilStep4(y);
    CeilStep100(y);
    CeilStep400(y);
    MultiplesNest(y);
    var a := if y % 4 == 0 then 1 else 0;
    var b := if y % 100 == 0 then 1 else 0;
    var c := if y % 400 == 0 then 1 else 0;
    assert LeapYearsBefore(y + 1) - LeapYearsBefore(y) == a - b + c;
  }

  /** A multiple of 400 is a multiple of 100, and a multiple of 100 is a multiple of 4. */
  lemma MultiplesNest(y: int)
    ensures y % 400 == 0 ==> y % 100 == 0
    ensures y % 100 == 0 ==> y % 4 == 0
  {
    if y % 400 == 0 {
      var k := 4 * (y / 400) - y / 100;
      assert 100 * k == y % 100;
    }
    if y % 100 == 0 {
      var k := 25 * (y / 100) - y / 4;
      assert 4 * k == y % 4;
    }
  }

  /** The step of a rounded-up quotient: `(y + n) / n` exceeds `(y + n - 1) / n` exactly at multiples of `n`. */
  lemma CeilStep4(y: int)
    ensures (y + 4) / 4 - (y + 3) / 4 == if y % 4 == 0 then 1 else 0
  {
    var q, r := y / 4, y % 4;
    assert y == 4 * q + r && 0 <= r < 4;
    assert (y + 4) / 4 == q + 1;
    if r == 0 { assert (y + 3) / 4 == q; } else { assert (y + 3) / 4 == q + 1; }
  }

  lemma CeilStep100(y: int)
    ensures (y + 100) / 100 - (y + 99) / 100 == if y % 100 == 0 then 1 else 0
  {
    var q, r := y / 100, y % 100;
    assert y == 100 * q + r && 0 <= r < 100;
    assert (y + 100) / 100 == q + 1;
    if r == 0 { assert (y + 99) / 100 == q; } else { assert (y + 99) / 100 == q + 1; }
  }

  lemma CeilStep400(y: int)
    ensures (y + 400) / 400 - (y + 399) / 400 == if y % 400 == 0 then 1 else 0
  {
    var q, r := y / 400, y % 400;
    assert y == 400 * q + r && 0 <= r < 400;
    assert (y + 400) / 400 == q + 1;
    if r == 0 { assert (y + 399) / 400 == q; } else { assert (y + 399) / 400 == q + 1; }
  }

  lemma DaysBeforeDecember(y: int)
    ensures DaysBeforeMonth(y, 12) == if IsLeapYear(y) then 335 else 334
  {
    var f := if IsLeapYear(y) then 29 else 28;
    assert DaysBeforeMonth(y, 1) == 0;
    assert DaysBeforeMonth(y, 2) == 31;
    assert DaysBeforeMonth(y, 3) == 31 + f;
    assert DaysBeforeMonth(y, 4) == 62 + f;
    assert DaysBeforeMonth(y, 5) == 92 + f;
    assert DaysBeforeMonth(y, 6) == 123 + f;
    assert DaysBeforeMonth(y, 7) == 153 + f;
    assert DaysBeforeMonth(y, 8) == 184 + f;
    assert DaysBeforeMonth(y, 9) == 215 + f;
    assert DaysBeforeMonth(y, 10) == 245 + f;
    assert DaysBeforeMonth(y, 11) == 276 + f;
  }

  /** `Date.prototype.getDay` of a day number: 0 is Sunday, 1 Monday, ..., 6 Saturday. */
  function Weekday(dayNumber: int): (w: nat)
    ensures w < 7
  {
    (dayNumber + 4) % 7
  }

  lemma WeekdayShift(dayNumber: int, weeks: int)
    ensures Weekday(dayNumber + 7 * weeks) == Weekday(dayNumber)
  {
  }

  /**
   * A date and time that `new Date(...)` accepts from the ISO form: a real
   * calendar day, and a time from 00:00:00 to 23:59:59 or the end-of-day
   * value 24:00:00.
   */
  predicate Valid(dt: DateTime)
  {
    && 1 <= dt.month <= 12
    && 1 <= dt.day <= DaysInMonth(dt.year, dt.month)
    && ((0 <= dt.hour <= 23 && 0 <= dt.minute <= 59 && 0 <= dt.second <= 59)
        || (dt.hour == 24 && dt.minute == 0 && dt.second == 0))
  }

  /** Seconds since 1970-01-01 00:00:00 on the wall clock; the comparison key of two dates. */
  function LocalSeconds(dt: DateTime): int
    requires 1 <= dt.month <= 12
  {
    DayNumber(dt.year, dt.month, dt.day) * SecondsPerDay + dt.hour * 3600 + dt.minute * 60 + dt.second
  }

  /** The day number the instant falls on (24:00:00 falls on the next day). */
  function DayOf(dt: DateTime): int
    requires 1 <= dt.month <= 12
  {
    LocalSeconds(dt) / SecondsPerDay
  }

  /** `getDay()`, `getHours()` and `getMinutes()` of the Date the value denotes. */
  function GetDay(dt: DateTime): nat
    requires 1 <= dt.month <= 12
  {
    Weekday(DayOf(dt))
  }

  function GetHours(dt: DateTime): int
    requires 1 <= dt.month <= 12
  {
    (LocalSeconds(dt) % SecondsPerDay) / 3600
  }

  function GetMinutes(dt: DateTime): int
    requires 1 <= dt.month <= 12
  {
    (LocalSeconds(dt) % 3600) / 60
  }

  /** The day and the time of day of a count of seconds split into whole days and a remainder. */
  lemma SplitSeconds(dn: int, t: int)
    requires 0 <= t < SecondsPerDay
    ensures (dn * SecondsPerDay + t) / SecondsPerDay == dn
    ensures (dn * SecondsPerDay + t) % SecondsPerDay == t
    ensures (dn * SecondsPerDay + t) % 3600 == t % 3600
  {
    var x := dn * SecondsPerDay + t;
    assert x == (dn * 24) * 3600 + t;
  }

  /** For an ordinary time of day the accessors give back the fields. */
  lemma AccessorsOfFields(dt: DateTime)
    requires Valid(dt) && dt.hour <= 23
    ensures DayOf(dt) == DayNumber(dt.year, dt.month, dt.day)
    ensures GetDay(dt) == Weekday(DayNumber(dt.year, dt.month, dt.day))
    ensures GetHours(dt) == dt.hour && GetMinutes(dt) == dt.minute
  {
    var dn := DayNumber(dt.year, dt.month, dt.day);
    var t := dt.hour * 3600 + dt.minute * 60 + dt.second;
    assert LocalSeconds(dt) == dn * SecondsPerDay + t;
    SplitSeconds(dn, t);
    assert t / 3600 == dt.hour;
    assert t % 3600 == dt.minute * 60 + dt.second;
  }

  /** `24:00:00` is midnight of the following day. */
  lemma EndOfDay(dt: DateTime)
    requires Valid(dt) && dt.hour == 24
    ensures DayOf(dt) == DayNumber(dt.year, dt.month, dt.day) + 1
    ensures GetHours(dt) == 0 && GetMinutes(dt) == 0
  {
    var dn := DayNumber(dt.year, dt.month, dt.day);
    assert LocalSeconds(dt) == (dn + 1) * SecondsPerDay + 0;
    SplitSeconds(dn + 1, 0);
  }

  /**
   * `getStartOfWeek` on a day number: the day is moved back to the Monday
   * of its week, a Sunday counting as the last day of the week that began
   * six days earlier.
   */
  function StartOfWeekDay(dayNumber: int): (monday: int)
    ensures Weekday(monday) == 1
    ensures dayNumber - 6 <= monday <= dayNumber
    ensures Weekday(dayNumber) == 0 ==> monday == dayNumber - 6
    ensures Weekday(dayNumber) == 1 ==> monday == dayNumber
  {
    var day := Weekday(dayNumber);
    dayNumber - day + (if day == 0 then -6 else 1)
  }

  /** The Monday the function returns is the only Monday in the six days up to and including the day. */
  lemma {:induction false} StartOfWeekUnique(dayNumber: int, monday: int)
    requires Weekday(monday) == 1 && dayNumber - 6 <= monday <= dayNumber
    ensures StartOfWeekDay(dayNumber) == monday
  {
    var r := StartOfWeekDay(dayNumber);
    var k := r - monday;
    assert -6 <= k <= 6;
    assert (r + 4) % 7 == (monday + 4) % 7;
    assert k % 7 == 0 by {
      assert (r + 4) - (monday + 4) == k;
    }
  }

  lemma StartOfWeekIdempotent(dayNumber: int)
    ensures StartOfWeekDay(StartOfWeekDay(dayNumber)) == StartOfWeekDay(dayNumber)
  {
  }

  /** `getStartOfWeek(date)`: the day number of the Monday at whose local midnight the week of `date` starts. */
  function StartOfWeek(date: DateTime): (monday: int)
    requires 1 <= date.month <= 12
    ensures Weekday(monday) == 1
    ensures monday * SecondsPerDay <= LocalSeconds(date) < (monday + 7) * SecondsPerDay
  {
    StartOfWeekDay(DayOf(date))
  }

  /** `String.prototype.slice(a, b)`: negative bounds count from the end; out-of-order bounds give "". */
  function Slice(s: string, a: int, b: int): (r: string)
    ensures 0 <= a <= b <= |s| ==> r == s[a..b]
  {
    var lo := if a < 0 then Clamp(|s| + a, |s|) else Clamp(a, |s|);
    var hi := if b < 0 then Clamp(|s| + b, |s|) else Clamp(b, |s|);
    if lo <= hi then s[lo..hi] else ""
  }

  /** `convertICalDateToISO`: the compact form rewritten, by character position, into the ISO layout. */
  function ToIso(ical: string): (r: string)
    ensures EndsWith(ical, "Z") ==> EndsWith(r, "Z")
    ensures |ical| >= 8 ==> |r| >= 11 && r[..10] == Joined3(ical[0..4], '-', ical[4..6], ical[6..8]) && r[10] == 'T'
    ensures |ical| >= 8 && IndexOf(ical, "T").None? ==> |r| >= 19 && r[11..19] == "00:00:00"
  {
    ToIsoFront(ical, "Z");
    ToIsoFront(ical, "");
    if EndsWith(ical, "Z") then DatePart(ical) + "T" + TimePart(ical) + "Z"
    else DatePart(ical) + "T" + TimePart(ical)
  }

  /**
   * Layout of the rewritten string when the input is long enough for its
   * fields: characters 0-3, 4-5 and 6-7 become year, month and day; the
   * time is characters 9-10, 11-12 and 13-14 when the input holds a `T`
   * and midnight otherwise; a `Z` is appended exactly when the input ends
   * with one.
   */
  lemma {:induction false} ToIsoLayout(ical: string)
    requires |ical| >= 8
    requires IndexOf(ical, "T").Some? ==> |ical| >= 15
    ensures var r := ToIso(ical);
      && |r| == 19 + (if EndsWith(ical, "Z") then 1 else 0)
      && r[0..4] == ical[0..4] && r[4] == '-'
      && r[5..7] == ical[4..6] && r[7] == '-'
      && r[8..10] == ical[6..8] && r[10] == 'T'
      && (IndexOf(ical, "T").None? ==> r[11..19] == "00:00:00")
      && (IndexOf(ical, "T").Some? ==>
            r[11..13] == ical[9..11] && r[13] == ':' && r[14..16] == ical[11..13]
            && r[16] == ':' && r[17..19] == ical[13..15])
      && r[19..] == (if EndsWith(ical, "Z") then "Z" else "")
  {
    var z := if EndsWith(ical, "Z") then "Z" else "";
    if IndexOf(ical, "T").Some? {
      ToIsoOf(ical, ical[9..11], ical[11..13], ical[13..15], z);
      LayoutSlices(ical[0..4], ical[4..6], ical[6..8], ical[9..11], ical[11..13], ical[13..15], z);
    } else {
      ToIsoOf(ical, "00", "00", "00", z);
      LayoutSlices(ical[0..4], ical[4..6], ical[6..8], "00", "00", "00", z);
      MidnightClock();
    }
  }

  /** The rewrite as a date, a `T`, a clock of three two-character fields and the zone suffix. */
  lemma ToIsoOf(ical: string, a: string, b: string, c: string, z: string)
    requires |ical| >= 8
    requires IndexOf(ical, "T").Some? ==> |ical| >= 15 && a == ical[9..11] && b == ical[11..13] && c == ical[13..15]
    requires IndexOf(ical, "T").None? ==> a == "00" && b == "00" && c == "00"
    requires z == if EndsWith(ical, "Z") then "Z" else ""
    ensures ToIso(ical) == Joined3(ical[0..4], '-', ical[4..6], ical[6..8]) + "T" + Joined3(a, ':', b, c) + z
  {
    var date, time := DatePart(ical), TimePart(ical);
    assert Joined3(a, ':', b, c) == time by {
      if IndexOf(ical, "T").Some? { ClockPart(ical); } else { MidnightClock(); }
    }
    DatePartOf(ical);
    ToIsoZone(ical);
  }

  /** The rewrite is the date, a `T`, the clock and a `Z` exactly when the token ends with one. */
  lemma ToIsoZone(ical: string)
    ensures ToIso(ical) == DatePart(ical) + "T" + TimePart(ical) + (if EndsWith(ical, "Z") then "Z" else "")
  {
    var pre := DatePart(ical) + "T" + TimePart(ical);
    if !EndsWith(ical, "Z") {
      assert pre + "" == pre;
    }
  }

  /** The date comes first, then the `T`, then the clock. */
  lemma ToIsoFront(ical: string, z: string)
    ensures var r := DatePart(ical) + "T" + TimePart(ical) + z;
      |ical| >= 8 ==> |r| >= 11 && r[..10] == Joined3(ical[0..4], '-', ical[4..6], ical[6..8]) && r[10] == 'T'
    ensures var r := DatePart(ical) + "T" + TimePart(ical) + z;
      |ical| >= 8 && IndexOf(ical, "T").None? ==> |r| >= 19 && r[11..19] == "00:00:00"
    ensures DatePart(ical) + "T" + TimePart(ical) + "" == DatePart(ical) + "T" + TimePart(ical)
  {
    if |ical| >= 8 {
      DatePartOf(ical);
      DateFront(DatePart(ical), TimePart(ical), z);
    }
  }

  lemma DateFront(date: string, time: string, z: string)
    requires |date| == 10
    ensures var r := date + "T" + time + z;
      && |r| == 11 + |time| + |z| && r[..10] == date && r[10] == 'T'
      && (|time| >= 8 ==> r[11..19] == time[..8])
  {
    var r := date + "T" + time + z;
    assert r == date + (['T'] + (time + z));
    assert r[11..] == time + z;
    if |time| >= 8 {
      assert r[11..19] == (time + z)[..8];
    }
  }

  /** The date the rewrite writes: characters 0-3, 4-5 and 6-7 joined by `-`. */
  function DatePart(ical: string): string
  {
    Substring(ical, 0, 4) + "-" + Substring(ical, 4, 6) + "-" + Substring(ical, 6, 8)
  }

  /** The clock the rewrite writes: characters 9-10, 11-12 and 13-14 joined by `:` when there is a `T`, midnight otherwise. */
  function TimePart(ical: string): string
  {
    if IndexOf(ical, "T").Some? then
      Substring(ical, 9, 11) + ":" + Substring(ical, 11, 13) + ":" + Substring(ical, 13, 15)
    else "00:00:00"
  }

  lemma DatePartOf(ical: string)
    requires |ical| >= 8
    ensures DatePart(ical) == Joined3(ical[0..4], '-', ical[4..6], ical[6..8])
  {
    assert Substring(ical, 0, 4) == ical[0..4] && Substring(ical, 4, 6) == ical[4..6]
        && Substring(ical, 6, 8) == ical[6..8];
  }

  lemma ClockPart(ical: string)
    requires IndexOf(ical, "T").Some? && |ical| >= 15
    ensures TimePart(ical) == Joined3(ical[9..11], ':', ical[11..13], ical[13..15])
  {
    assert Substring(ical, 9, 11) == ical[9..11] && Substring(ical, 11, 13) == ical[11..13]
        && Substring(ical, 13, 15) == ical[13..15];
  }

  /** The clock the rewrite uses for a token without a time part. */
  lemma MidnightClock()
    ensures Joined3("00", ':', "00", "00") == "00:00:00"
  {
    var j := Joined3("00", ':', "00", "00");
    assert j == ['0', '0', ':', '0', '0', ':', '0', '0'];
  }

  /** Where each field sits in a date, a `T`, a clock and a tail laid out as the ISO form. */
  lemma LayoutSlices(y: string, mo: string, d: string, a: string, b: string, c: string, z: string)
    requires |y| == 4 && |mo| == 2 && |d| == 2 && |a| == 2 && |b| == 2 && |c| == 2
    ensures var time := Joined3(a, ':', b, c);
      var r := Joined3(y, '-', mo, d) + "T" + time + z;
      && |r| == 19 + |z|
      && r[0..4] == y && r[4] == '-' && r[5..7] == mo && r[7] == '-' && r[8..10] == d && r[10] == 'T'
      && r[11..19] == time && r[11..13] == a && r[13] == ':' && r[14..16] == b && r[16] == ':'
      && r[17..19] == c && r[19..] == z
  {
    var date, time := Joined3(y, '-', mo, d), Joined3(a, ':', b, c);
    var r := date + "T" + time + z;
    IsoPieces(date, 'T', time, z);
    assert r[0..4] == r[..10][0..4];
    assert r[5..7] == r[..10][5..7];
    assert r[8..10] == r[..10][8..10];
    assert r[11..13] == r[11..19][0..2];
    assert r[14..16] == r[11..19][3..5];
    assert r[17..19] == r[11..19][6..8];
  }

  /** The ISO layout of a date, as `toISOString` would write it without milliseconds. */
  function IsoString(dt: DateTime): string
    requires NonNegative(dt)
  {
    Joined3(PadDigits(dt.year, 4), '-', PadDigits(dt.month, 2), PadDigits(dt.day, 2)) + "T"
    + Joined3(PadDigits(dt.hour, 2), ':', PadDigits(dt.minute, 2), PadDigits(dt.second, 2))
    + Zone(dt.utc)
  }

  predicate NonNegative(dt: DateTime)
  {
    0 <= dt.year && dt.month >= 0 && dt.day >= 0 && dt.hour >= 0 && dt.minute >= 0 && dt.second >= 0
  }

  function Zone(utc: bool): string { if utc then "Z" else "" }

  /** Three fields joined by a separator character. */
  function Joined3(a: string, sep: char, b: string, c: string): (r: string)
    ensures |r| == |a| + |b| + |c| + 2
    ensures r[..|a|] == a && r[|a|] == sep && r[|a| + 1..|a| + 1 + |b|] == b
    ensures r[|a| + 1 + |b|] == sep && r[|a| + 2 + |b|..] == c
  {
    a + [sep] + b + [sep] + c
  }

  lemma Joined3Of(r: string, w1: nat, w2: nat, w3: nat, sep: char)
    requires |r| == w1 + w2 + w3 + 2 && r[w1] == sep && r[w1 + 1 + w2] == sep
    ensures r == Joined3(r[..w1], sep, r[w1 + 1..w1 + 1 + w2], r[w1 + 2 + w2..])
  {
  }

  /** Slices of a string made of a 10-character date, a separator character, an 8-character clock and a tail. */
  lemma IsoPieces(date: string, sep: char, clock: string, tail: string)
    requires |date| == 10 && |clock| == 8
    ensures var r := date + [sep] + clock + tail;
      r[..10] == date && r[10] == sep && r[11..19] == clock && r[19..] == tail
  {
  }

  predicate IsoShape(iso: string)
  {
    && (|iso| == 19 || (|iso| == 20 && iso[19] == 'Z'))
    && AllDigits(iso[0..4]) && iso[4] == '-' && AllDigits(iso[5..7]) && iso[7] == '-'
    && AllDigits(iso[8..10]) && iso[10] == 'T' && AllDigits(iso[11..13]) && iso[13] == ':'
    && AllDigits(iso[14..16]) && iso[16] == ':' && AllDigits(iso[17..19])
  }

  /**
   * `new Date(iso)` on the ISO date-time form: the value when the string has
   * the layout `YYYY-MM-DDTHH:MM:SS` with an optional `Z` and names a valid
   * date and time, None ("Invalid Date") otherwise.
   */
  function ParseIso(iso: string): (r: Option<DateTime>)
    ensures r.Some? ==> Valid(r.value) && 0 <= r.value.year <= 9999 && IsoString(r.value) == iso
  {
    if IsoShape(iso) then
      var dt := DateTime(DigitsValue(iso[0..4]), DigitsValue(iso[5..7]), DigitsValue(iso[8..10]),
                         DigitsValue(iso[11..13]), DigitsValue(iso[14..16]), DigitsValue(iso[17..19]),
                         |iso| == 20);
      if Valid(dt) then
        IsoShapeRoundTrip(iso, dt);
        Some(dt)
      else None
    else None
  }

  lemma {:induction false} IsoShapeRoundTrip(iso: string, dt: DateTime)
    requires IsoShape(iso)
    requires dt == DateTime(DigitsValue(iso[0..4]), DigitsValue(iso[5..7]), DigitsValue(iso[8..10]),
                            DigitsValue(iso[11..13]), DigitsValue(iso[14..16]), DigitsValue(iso[17..19]),
                            |iso| == 20)
    ensures dt.year <= 9999 && IsoString(dt) == iso
  {
    DigitsValuePad(iso[0..4]);
    assert Pow10(4) == 10000;
    DateFieldsRoundTrip(iso);
    ClockFieldsRoundTrip(iso);
    var dateR := Joined3(PadDigits(dt.year, 4), '-', PadDigits(dt.month, 2), PadDigits(dt.day, 2));
    var clockR := Joined3(PadDigits(dt.hour, 2), ':', PadDigits(dt.minute, 2), PadDigits(dt.second, 2));
    assert IsoString(dt) == dateR + "T" + clockR + Zone(dt.utc);
    IsoPiecesOf(iso);
    assert [iso[10]] == "T";
    assert iso[19..] == Zone(dt.utc) by {
      if |iso| == 20 { assert iso[19..] == [iso[19]]; }
    }
  }

  /** The date fields of an ISO layout, read and written back, give the date part again. */
  lemma DateFieldsRoundTrip(iso: string)
    requires IsoShape(iso)
    ensures Joined3(PadDigits(DigitsValue(iso[0..4]), 4), '-', PadDigits(DigitsValue(iso[5..7]), 2),
                    PadDigits(DigitsValue(iso[8..10]), 2)) == iso[..10]
  {
    DigitsValuePad(iso[0..4]);
    DigitsValuePad(iso[5..7]);
    DigitsValuePad(iso[8..10]);
    var date := iso[..10];
    assert date[4] == '-' && date[7] == '-';
    Joined3Of(date, 4, 2, 2, '-');
    SliceOfSlice(iso, 0, 10, 0, 4);
    SliceOfSlice(iso, 0, 10, 5, 7);
    SliceOfSlice(iso, 0, 10, 8, 10);
    assert date == iso[0..10] && date[..4] == date[0..4] && date[8..] == date[8..10];
  }

  /** The clock fields of an ISO layout, read and written back, give the clock part again. */
  lemma ClockFieldsRoundTrip(iso: string)
    requires IsoShape(iso)
    ensures Joined3(PadDigits(DigitsValue(iso[11..13]), 2), ':', PadDigits(DigitsValue(iso[14..16]), 2),
                    PadDigits(DigitsValue(iso[17..19]), 2)) == iso[11..19]
  {
    DigitsValuePad(iso[11..13]);
    DigitsValuePad(iso[14..16]);
    DigitsValuePad(iso[17..19]);
    var clock := iso[11..19];
    assert clock[2] == ':' && clock[5] == ':';
    Joined3Of(clock, 2, 2, 2, ':');
    SliceOfSlice(iso, 11, 19, 0, 2);
    SliceOfSlice(iso, 11, 19, 3, 5);
    SliceOfSlice(iso, 11, 19, 6, 8);
    assert clock[..2] == clock[0..2] && clock[6..] == clock[6..8];
  }

  lemma IsoPiecesOf(iso: string)
    requires |iso| >= 19
    ensures iso == iso[..10] + [iso[10]] + iso[11..19] + iso[19..]
  {
    assert iso == iso[..10] + iso[10..];
    assert iso[10..] == [iso[10]] + iso[11..];
    assert iso[11..] == iso[11..19] + iso[19..];
  }

  /** Every valid date with a four-digit year is read back from its ISO layout. */
  lemma {:induction false} ParseIsoString(dt: DateTime)
    requires Valid(dt) && 0 <= dt.year <= 9999
    ensures ParseIso(IsoString(dt)) == Some(dt)
  {
    var iso := IsoString(dt);
    var y, mo, d := PadDigits(dt.year, 4), PadDigits(dt.month, 2), PadDigits(dt.day, 2);
    var h, mi, s := PadDigits(dt.hour, 2), PadDigits(dt.minute, 2), PadDigits(dt.second, 2);
    assert iso == Joined3(y, '-', mo, d) + "T" + Joined3(h, ':', mi, s) + Zone(dt.utc);
    LayoutSlices(y, mo, d, h, mi, s, Zone(dt.utc));
    assert IsoShape(iso);
    assert Pow10(4) == 10000 && Pow10(2) == 100;
    PadDigitsValue(dt.year, 4);
    PadDigitsValue(dt.month, 2);
    PadDigitsValue(dt.day, 2);
    PadDigitsValue(dt.hour, 2);
    PadDigitsValue(dt.minute, 2);
    PadDigitsValue(dt.second, 2);
    var read := DateTime(DigitsValue(iso[0..4]), DigitsValue(iso[5..7]), DigitsValue(iso[8..10]),
                         DigitsValue(iso[11..13]), DigitsValue(iso[14..16]), DigitsValue(iso[17..19]),
                         |iso| == 20);
    assert read == dt;
  }

  /** The start or end token of an event read as a date: `new Date(convertICalDateToISO(token))`. */
  function Decode(ical: string): (r: Option<DateTime>)
    ensures r.Some? ==> Valid(r.value) && 0 <= r.value.year <= 9999 && IsoString(r.value) == ToIso(ical)
  {
    ParseIso(ToIso(ical))
  }

  /** An empty token reads as no date: its rewrite is too short for the ISO layout. */
  lemma DecodeEmpty()
    ensures Decode("") == None
  {
    assert IndexOf("", "T").None?;
    assert |ToIso("")| == 11;
  }

  /** The compact RFC 5545 DATE-TIME form of a date: `YYYYMMDDTHHMMSS`, with `Z` for UTC. */
  function Encode(dt: DateTime): string
    requires NonNegative(dt)
  {
    PadDigits(dt.year, 4) + PadDigits(dt.month, 2) + PadDigits(dt.day, 2) + "T"
    + PadDigits(dt.hour, 2) + PadDigits(dt.minute, 2) + PadDigits(dt.second, 2)
    + Zone(dt.utc)
  }

  /** The compact DATE form `YYYYMMDD` (RFC 5545 section 3.3.4), with an optional `Z`. */
  function EncodeDate(year: nat, month: nat, day: nat, utc: bool): string
  {
    PadDigits(year, 4) + PadDigits(month, 2) + PadDigits(day, 2) + Zone(utc)
  }

  lemma ToIsoEncode(dt: DateTime)
    requires NonNegative(dt)
    ensures ToIso(Encode(dt)) == IsoString(dt)
  {
    var h, mi, s := PadDigits(dt.hour, 2), PadDigits(dt.minute, 2), PadDigits(dt.second, 2);
    EncodeFields(dt);
    ToIsoOf(Encode(dt), h, mi, s, Zone(dt.utc));
  }

  /** The compact DATE-TIME form has its fields at 0-3, 4-5, 6-7, 9-10, 11-12 and 13-14, a `T`, and a final `Z` exactly in UTC. */
  lemma EncodeFields(dt: DateTime)
    requires NonNegative(dt)
    ensures var e := Encode(dt);
      && |e| >= 15
      && e[0..4] == PadDigits(dt.year, 4) && e[4..6] == PadDigits(dt.month, 2) && e[6..8] == PadDigits(dt.day, 2)
      && e[9..11] == PadDigits(dt.hour, 2) && e[11..13] == PadDigits(dt.minute, 2) && e[13..15] == PadDigits(dt.second, 2)
      && IndexOf(e, "T").Some? && EndsWith(e, "Z") == dt.utc
  {
    var e := Encode(dt);
    var y, mo, d := PadDigits(dt.year, 4), PadDigits(dt.month, 2), PadDigits(dt.day, 2);
    var h, mi, s := PadDigits(dt.hour, 2), PadDigits(dt.minute, 2), PadDigits(dt.second, 2);
    var date, clock := y + mo + d, h + mi + s;
    assert e == date + "T" + clock + Zone(dt.utc);
    assert e[..8] == date && e[8] == 'T' && e[9..15] == clock;
    assert e[0..4] == y && e[4..6] == mo && e[6..8] == d by {
      assert e[0..4] == date[0..4] && e[4..6] == date[4..6] && e[6..8] == date[6..8];
    }
    assert e[9..11] == h && e[11..13] == mi && e[13..15] == s by {
      assert e[9..11] == clock[0..2] && e[11..13] == clock[2..4] && e[13..15] == clock[4..6];
    }
    assert MatchAt(e, "T", 8) by { assert e[8..9] == "T"; }
    assert EndsWith(e, "Z") == dt.utc by {
      if !dt.utc { assert e[|e| - 1..] == [s[1]]; }
    }
  }

  /** Round trip: reading the compact form of a valid date gives the date back. */
  lemma DecodeEncode(dt: DateTime)
    requires Valid(dt) && 0 <= dt.year <= 9999
    ensures Decode(Encode(dt)) == Some(dt)
  {
    ToIsoEncode(dt);
    ParseIsoString(dt);
  }

  /** A token without a time part decodes to midnight of its day. */
  lemma DecodeDateOnly(year: nat, month: nat, day: nat, utc: bool)
    requires Valid(DateTime(year, month, day, 0, 0, 0, utc)) && year <= 9999
    ensures Decode(EncodeDate(year, month, day, utc)) == Some(DateTime(year, month, day, 0, 0, 0, utc))
  {
    DateOnlyIso(year, month, day, utc);
    ParseIsoString(DateTime(year, month, day, 0, 0, 0, utc));
  }

  /** The rewrite of a date-only token is the ISO form of midnight of that day. */
  lemma DateOnlyIso(year: nat, month: nat, day: nat, utc: bool)
    ensures ToIso(EncodeDate(year, month, day, utc)) == IsoString(DateTime(year, month, day, 0, 0, 0, utc))
  {
    var e := EncodeDate(year, month, day, utc);
    var y, mo, d := PadDigits(year, 4), PadDigits(month, 2), PadDigits(day, 2);
    DateOnlyFields(year, month, day, utc);
    ToIsoOf(e, "00", "00", "00", Zone(utc));
    ZeroPad();
    assert IsoString(DateTime(year, month, day, 0, 0, 0, utc)) == Joined3(y, '-', mo, d) + "T" + Joined3("00", ':', "00", "00") + Zone(utc);
  }

  lemma ZeroPad()
    ensures PadDigits(0, 2) == "00"
  {
    assert PadDigits(0, 1) == "0";
  }

  /** A date-only token has its fields at 0-3, 4-5 and 6-7, no `T`, and a final `Z` exactly when it is in UTC. */
  lemma DateOnlyFields(year: nat, month: nat, day: nat, utc: bool)
    ensures var e := EncodeDate(year, month, day, utc);
      && |e| >= 8
      && e[0..4] == PadDigits(year, 4) && e[4..6] == PadDigits(month, 2) && e[6..8] == PadDigits(day, 2)
      && IndexOf(e, "T").None? && EndsWith(e, "Z") == utc
  {
    var e := EncodeDate(year, month, day, utc);
    var y, mo, d := PadDigits(year, 4), PadDigits(month, 2), PadDigits(day, 2);
    assert e[0..4] == y && e[4..6] == mo && e[6..8] == d;
    forall k | 0 <= k < |e| ensures e[k] != 'T' {
      if k < 4 { assert e[k] == y[k]; } else if k < 6 { assert e[k] == mo[k - 4]; }
      else if k < 8 { assert e[k] == d[k - 6]; }
    }
    forall k | 0 <= k ensures !MatchAt(e, "T", k) {
      if k < |e| { assert e[k..k + 1][0] == e[k]; }
    }
    assert EndsWith(e, "Z") == utc by {
      if !utc { assert e[|e| - 1..] == [d[1]]; }
    }
  }

  /** `formatHour`'s padding of one field: a "0" in front of anything below 10. */
  function PadClock(x: int): string
  {
    if x < 10 then "0" + IntToString(x) else IntToString(x)
  }

  /** `formatHour(hour, minute)`. */
  function FormatHour(hour: int, minute: int): (r: string)
    ensures 0 <= hour < 100 && 0 <= minute < 100 ==> r == PadDigits(hour, 2) + ":" + PadDigits(minute, 2)
  {
    TwoDigitFields(hour, minute);
    PadClock(hour) + ":" + PadClock(minute)
  }

  lemma TwoDigitFields(hour: int, minute: int)
    ensures 0 <= hour < 100 && 0 <= minute < 100 ==>
      PadClock(hour) == PadDigits(hour, 2) && PadClock(minute) == PadDigits(minute, 2)
  {
    if 0 <= hour < 100 && 0 <= minute < 100 {
      PadClockTwoDigits(hour);
      PadClockTwoDigits(minute);
    }
  }

  lemma PadClockTwoDigits(x: int)
    requires 0 <= x < 100
    ensures PadClock(x) == PadDigits(x, 2)
  {
    if x < 10 {
      assert NatToString(x) == [DigitChar(x)];
      assert PadDigits(x, 2) == PadDigits(0, 1) + [DigitChar(x)];
    } else {
      assert NatToString(x) == NatToString(x / 10) + [DigitChar(x % 10)];
      assert NatToString(x / 10) == [DigitChar(x / 10)];
      assert PadDigits(x, 2) == PadDigits(x / 10, 1) + [DigitChar(x % 10)];
      assert PadDigits(x / 10, 1) == [DigitChar(x / 10)];
    }
  }

  /**
   * For fields below 100 the formatted clock is exactly five characters,
   * two digits of the hours, a colon and two digits of the minutes, and
   * the digits read back as the two fields.
   */
  lemma {:induction false} FormatHourLayout(hour: int, minute: int)
    requires 0 <= hour < 100 && 0 <= minute < 100
    ensures var r := FormatHour(hour, minute);
      && |r| == 5 && r[2] == ':' && AllDigits(r[0..2]) && AllDigits(r[3..5])
      && DigitsValue(r[0..2]) == hour && DigitsValue(r[3..5]) == minute
  {
    PadClockTwoDigits(hour);
    PadClockTwoDigits(minute);
    var r := FormatHour(hour, minute);
    assert r[0..2] == PadDigits(hour, 2) && r[3..5] == PadDigits(minute, 2);
    assert Pow10(2) == 100;
    PadDigitsValue(hour, 2);
    PadDigitsValue(minute, 2);
  }

  /** `formatTime(token)`: characters 9-10 and 11-12 of the compact form, joined by a colon. */
  function FormatTime(timeString: string): (r: string)
    ensures |timeString| >= 13 ==> |r| == 5 && r[..2] == timeString[9..11] && r[2] == ':' && r[3..] == timeString[11..13]
    ensures |timeString| <= 9 ==> r == ":"
  {
    Slice(timeString, 9, 11) + ":" + Slice(timeString, 11, 13)
  }

  /** On a compact DATE-TIME, formatTime shows the same clock as formatHour of its hours and minutes. */
  lemma {:induction false} FormatTimeEncode(dt: DateTime)
    requires Valid(dt) && 0 <= dt.year && dt.hour <= 23
    ensures FormatTime(Encode(dt)) == FormatHour(dt.hour, dt.minute)
  {
    var e := Encode(dt);
    assert e[9..11] == PadDigits(dt.hour, 2) && e[11..13] == PadDigits(dt.minute, 2);
    PadClockTwoDigits(dt.hour);
    PadClockTwoDigits(dt.minute);
  }
}
