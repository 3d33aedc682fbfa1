/**
 * `clearNotesOnNewWeek` over the page's storage, seen as a map from keys
 * to stored texts: when the week number differs from the one recorded
 * under "lastWeekSaved", the notes under "lessonNotes" are removed and the
 * new week number is recorded. The week number is an input.
 */
module Notes {
  import opened Text

  const NotesKey := "lessonNotes"
  const WeekKey := "lastWeekSaved"

  /**
   * `JSON.parse(getItem("lastWeekSaved")) || 0` for the texts the page
   * writes itself: 0 when the key is absent, the number a numeral denotes,
   * and None for any other text, which equals no week number.
   */
  function SavedWeek(items: map<string, string>): (w: Option<nat>)
    ensures WeekKey !in items ==> w == Some(0)
    ensures w.Some? && WeekKey in items ==> items[WeekKey] == NatToString(w.value)
  {
    if WeekKey !in items then Some(0) else ParseNat(items[WeekKey])
  }

  /** The storage after the week check for week `week`. */
  function AfterWeekCheck(items: map<string, string>, week: nat): (r: map<string, string>)
    ensures SavedWeek(r) == Some(week)
    ensures NotesKey in r ==> r == items
    ensures forall key :: key != NotesKey && key != WeekKey ==> (key in r <==> key in items)
    ensures forall key :: key in r && key != WeekKey ==> key in items && r[key] == items[key]
  {
    ParseNatToString(week);
    if SavedWeek(items) == Some(week) then items
    else (items - {NotesKey})[WeekKey := NatToString(week)]
  }

  /** After the check, the storage records the week, and the notes are gone unless the week was already recorded. */
  lemma AfterWeekCheckRecords(items: map<string, string>, week: nat)
    ensures SavedWeek(AfterWeekCheck(items, week)) == Some(week)
    ensures SavedWeek(items) != Some(week) ==> NotesKey !in AfterWeekCheck(items, week)
    ensures SavedWeek(items) == Some(week) ==> AfterWeekCheck(items, week) == items
  {
    ParseNatToString(week);
  }

  /** Every key other than the two the check writes keeps its value. */
  lemma AfterWeekCheckFrame(items: map<string, string>, week: nat, key: string)
    requires key != NotesKey && key != WeekKey
    ensures key in AfterWeekCheck(items, week) <==> key in items
    ensures key in items ==> AfterWeekCheck(items, week)[key] == items[key]
  {
  }

  /** A second check in the same week changes nothing. */
  lemma AfterWeekCheckIdempotent(items: map<string, string>, week: nat)
    ensures AfterWeekCheck(AfterWeekCheck(items, week), week) == AfterWeekCheck(items, week)
  {
    AfterWeekCheckRecords(items, week);
  }

  class NoteStore {
    /** The stored texts by key. */
    var items: map<string, string>

    constructor (items: map<string, string>)
      ensures this.items == items
    {
      this.items := items;
    }

    /** `clearNotesOnNewWeek()` with the week number `currentWeek` as an input. */
    method ClearNotesOnNewWeek(currentWeek: nat)
      modifies this
      ensures items == AfterWeekCheck(old(items), currentWeek)
      ensures SavedWeek(items) == Some(currentWeek)
    {
      AfterWeekCheckRecords(items, currentWeek);
      var savedWeek := SavedWeek(items);
      if savedWeek != Some(currentWeek) {
        items := items - {NotesKey};
        items := items[WeekKey := NatToString(currentWeek)];
      }
    }
  }
}
