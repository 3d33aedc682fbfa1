/**
 * The two line-driven feed parsers of the timetable: `parseICalendar`,
 * which reads VEVENT components (section 3.6.1 of RFC 5545) into lesson
 * events and splits each summary into subject, class and extra
 * information, and the looser `parseICS` of the user-selection page.
 *
 * Both keep one event accumulator. `END:VEVENT` pushes the accumulator
 * object itself onto the result, so field lines that follow it before the
 * next `BEGIN:VEVENT` still change the pushed event, and a second
 * `END:VEVENT` pushes the same object again. The parser state models this
 * sharing explicitly: the last `shared` entries of `events` are the
 * accumulator.
 */
module Feed {
  import opened Text

  /** A lesson as the parsers build it: an object whose properties may be absent (None). */
  datatype LessonEvent = LessonEvent(
    summary: Option<string>,
    subject: Option<string>,
    classNumber: Option<string>,
    additionalInfo: Option<string>,
    start: Option<string>,
    end: Option<string>)

  /** The empty object `{}`. */
  const NoEvent := LessonEvent(None, None, None, None, None, None)

  /** The closed set of line kinds the parsers act on. */
  datatype LineKind =
    | BeginEvent
    | EndEvent
    | Summary(text: string)
    | Start(token: Option<string>)
    | End(token: Option<string>)
    | Other

  const SummarySeparator := " - "

  /** The parts of a summary: subject, class number and additional information. */
  datatype SummaryParts = SummaryParts(subject: string, classNumber: string, additionalInfo: string)

  /**
   * The summary decomposition of `parseICalendar`. With three or more parts
   * the class part loses every `h<digits>` token and is trimmed; with fewer
   * it is taken as it stands, or "" when absent.
   */
  function SplitSummary(summary: string): (r: SummaryParts)
    ensures IndexOf(r.subject, SummarySeparator).None? && IndexOf(r.additionalInfo, SummarySeparator).None?
    ensures summary == r.subject || StartsWith(summary, r.subject + SummarySeparator)
    ensures r.subject == summary <==> IndexOf(summary, SummarySeparator).None?
  {
    var parts := Split(summary, SummarySeparator);
    SplitHead(summary, SummarySeparator);
    if |parts| >= 3 then SummaryParts(parts[0], Trim(StripClassTokens(parts[1])), parts[2])
    else SummaryParts(parts[0], if |parts| >= 2 then parts[1] else "", "")
  }

  /** A part that the separator cannot be found inside of, also when a separator follows it. */
  predicate IsPart(p: string) { IsSegment(p, SummarySeparator) }

  /** A text without a dash is a part, and holds no separator. */
  lemma DashFreePart(p: string)
    requires '-' !in p
    ensures IsPart(p) && IndexOf(p, SummarySeparator).None?
  {
    var t := p + SummarySeparator[..2];
    forall k | 0 <= k ensures !MatchAt(t, SummarySeparator, k) {
      if k + 3 <= |t| {
        assert t[k..k + 3][1] == t[k + 1];
        assert k + 1 < |p| ==> t[k + 1] == p[k + 1];
        assert k + 1 == |p| ==> t[k + 1] == ' ';
      }
    }
    AbsentCharNoMatch(p, SummarySeparator, 1);
  }

  /** Two leading parts and the separators after them come off the front of the split. */
  lemma {:induction false} SplitTwoParts(subject: string, classPart: string, rest: string)
    requires IsPart(subject) && IsPart(classPart)
    ensures Split(subject + " - " + classPart + " - " + rest, SummarySeparator)
         == [subject, classPart] + Split(rest, SummarySeparator)
  {
    assert subject + " - " + classPart + " - " + rest == subject + " - " + (classPart + " - " + rest);
    SplitCons(subject, SummarySeparator, classPart + " - " + rest);
    SplitCons(classPart, SummarySeparator, rest);
  }

  /**
   * With three or more parts: the subject is the first part, the class the
   * second with its class tokens stripped and trimmed, and the extra
   * information only the third part; anything after a further separator is
   * dropped.
   */
  lemma {:induction false} SplitSummaryThree(subject: string, classPart: string, rest: string)
    requires IsPart(subject) && IsPart(classPart)
    ensures SplitSummary(subject + " - " + classPart + " - " + rest)
         == SummaryParts(subject, Trim(StripClassTokens(classPart)), Split(rest, SummarySeparator)[0])
  {
    SplitTwoParts(subject, classPart, rest);
    var parts := Split(subject + " - " + classPart + " - " + rest, SummarySeparator);
    var tail := Split(rest, SummarySeparator);
    assert |parts| == 2 + |tail| >= 3;
    assert parts[0] == subject && parts[1] == classPart && parts[2] == tail[0];
  }

  lemma {:induction false} SplitSummaryExactlyThree(subject: string, classPart: string, info: string)
    requires IsPart(subject) && IsPart(classPart) && IndexOf(info, SummarySeparator).None?
    ensures SplitSummary(subject + " - " + classPart + " - " + info)
         == SummaryParts(subject, Trim(StripClassTokens(classPart)), info)
  {
    SplitSummaryThree(subject, classPart, info);
    SplitSingle(info, SummarySeparator);
  }

  /** With two parts no class token is stripped and no extra information is set. */
  lemma {:induction false} SplitSummaryTwo(subject: string, classPart: string)
    requires IsPart(subject) && IndexOf(classPart, SummarySeparator).None?
    ensures SplitSummary(subject + " - " + classPart) == SummaryParts(subject, classPart, "")
  {
    SplitCons(subject, SummarySeparator, classPart);
    SplitSingle(classPart, SummarySeparator);
  }

  lemma {:induction false} SplitSummaryOne(subject: string)
    requires IndexOf(subject, SummarySeparator).None?
    ensures SplitSummary(subject) == SummaryParts(subject, "", "")
  {
    SplitSingle(subject, SummarySeparator);
  }

  /**
   * Every summary has one of the shapes that SplitSummaryOne, SplitSummaryTwo
   * and SplitSummaryThree take: the parts before the last are parts in the
   * sense of `IsPart`, and the summary is them joined by separators.
   */
  lemma SplitSummaryCovers(summary: string)
    ensures var parts := Split(summary, SummarySeparator);
      && (|parts| == 1 ==> IndexOf(summary, SummarySeparator).None?)
      && (|parts| == 2 ==> IsPart(parts[0]) && IndexOf(parts[1], SummarySeparator).None?
                           && summary == parts[0] + " - " + parts[1])
      && (|parts| >= 3 ==> IsPart(parts[0]) && IsPart(parts[1])
                           && summary == parts[0] + " - " + parts[1] + " - " + Join(parts[2..], SummarySeparator))
  {
    var parts := Split(summary, SummarySeparator);
    SplitPartsAreSegments(summary, SummarySeparator);
    SplitHead(summary, SummarySeparator);
    if |parts| >= 2 {
      JoinFront(parts, SummarySeparator);
    }
  }

  /**
   * The class number and the extra information of every summary, by its
   * number of parts, obtained from the three shapes above.
   */
  lemma SplitSummaryCases(summary: string)
    ensures var parts, r := Split(summary, SummarySeparator), SplitSummary(summary);
      && r.subject == parts[0]
      && (|parts| >= 3 ==> r.classNumber == Trim(StripClassTokens(parts[1])) && r.additionalInfo == parts[2])
      && (|parts| == 2 ==> r.classNumber == parts[1] && r.additionalInfo == "")
      && (|parts| == 1 ==> r.classNumber == "" && r.additionalInfo == "")
  {
    var parts := Split(summary, SummarySeparator);
    SplitSummaryCovers(summary);
    if |parts| >= 3 {
      var rest := Join(parts[2..], SummarySeparator);
      SplitSummaryThree(parts[0], parts[1], rest);
      SplitTwoParts(parts[0], parts[1], rest);
    } else if |parts| == 2 {
      SplitSummaryTwo(parts[0], parts[1]);
    } else {
      SplitSummaryOne(summary);
    }
  }

  /** The event after a `SUMMARY:` line: the trimmed text and its decomposition. */
  function WithSummary(event: LessonEvent, summary: string): LessonEvent
  {
    var parts := SplitSummary(summary);
    event.(summary := Some(summary), subject := Some(parts.subject),
           classNumber := Some(parts.classNumber), additionalInfo := Some(parts.additionalInfo))
  }

  /**
   * The characters that tell the parsers' prefixes apart: the first one,
   * and the third for the two date properties.
   */
  lemma LineHeads(line: string)
    ensures StartsWith(line, "BEGIN:VEVENT") ==> line[0] == 'B'
    ensures StartsWith(line, "END:VEVENT") ==> line[0] == 'E'
    ensures StartsWith(line, "SUMMARY:") ==> line[0] == 'S'
    ensures StartsWith(line, "DTSTART") ==> line[0] == 'D' && line[2] == 'S'
    ensures StartsWith(line, "DTEND") ==> line[0] == 'D' && line[2] == 'E'
    ensures StartsWith(line, "DTSTART:") ==> line[0] == 'D' && line[2] == 'S'
    ensures StartsWith(line, "DTEND:") ==> line[0] == 'D' && line[2] == 'E'
  {
    if StartsWith(line, "BEGIN:VEVENT") { PrefixChar(line, "BEGIN:VEVENT", 0); }
    if StartsWith(line, "END:VEVENT") { PrefixChar(line, "END:VEVENT", 0); }
    if StartsWith(line, "SUMMARY:") { PrefixChar(line, "SUMMARY:", 0); }
    if StartsWith(line, "DTSTART") { PrefixChar(line, "DTSTART", 0); PrefixChar(line, "DTSTART", 2); }
    if StartsWith(line, "DTEND") { PrefixChar(line, "DTEND", 0); PrefixChar(line, "DTEND", 2); }
    if StartsWith(line, "DTSTART:") { PrefixChar(line, "DTSTART:", 0); PrefixChar(line, "DTSTART:", 2); }
    if StartsWith(line, "DTEND:") { PrefixChar(line, "DTEND:", 0); PrefixChar(line, "DTEND:", 2); }
  }

  /**
   * `parseICalendar`'s tests on a line, in its order, each a prefix test.
   * No line starts with two of the five prefixes, so each kind is chosen
   * exactly when the line starts with its prefix; a field line keeps what
   * follows its name and colon, and any other line is `Other`.
   */
  function ClassifyStrict(line: string): (r: LineKind)
    ensures r == BeginEvent <==> StartsWith(line, "BEGIN:VEVENT")
    ensures r == EndEvent <==> StartsWith(line, "END:VEVENT")
    ensures r.Summary? <==> StartsWith(line, "SUMMARY:")
    ensures r.Start? <==> StartsWith(line, "DTSTART:")
    ensures r.End? <==> StartsWith(line, "DTEND:")
    ensures r.Summary? ==> r.text == line[8..]
    ensures r.Start? ==> r.token == Some(line[8..])
    ensures r.End? ==> r.token == Some(line[6..])
  {
    LineHeads(line);
    if StartsWith(line, "BEGIN:VEVENT") then BeginEvent
    else if StartsWith(line, "END:VEVENT") then EndEvent
    else if StartsWith(line, "SUMMARY:") then
      ReplacePrefix(line, "SUMMARY:");
      Summary(ReplaceFirst(line, "SUMMARY:", ""))
    else if StartsWith(line, "DTSTART:") then
      ReplacePrefix(line, "DTSTART:");
      Start(Some(ReplaceFirst(line, "DTSTART:", "")))
    else if StartsWith(line, "DTEND:") then
      ReplacePrefix(line, "DTEND:");
      End(Some(ReplaceFirst(line, "DTEND:", "")))
    else Other
  }

  /** `line.split(":")[1]`: the text between the first and the second colon, absent without a colon. */
  function ColonField(line: string): (r: Option<string>)
    ensures r.None? <==> IndexOf(line, ":").None?
    ensures r.Some? ==> ':' !in r.value
  {
    var parts := Split(line, ":");
    if |parts| >= 2 then
      NoCharMatch(parts[1], ':');
      Some(parts[1])
    else None
  }

  /** A colon-free name followed by a colon: the field is the colon-free text after it, up to a next colon. */
  lemma ColonFieldOf(head: string, field: string, rest: string)
    requires ':' !in head && ':' !in field
    ensures ColonField(head + ":" + field) == Some(field)
    ensures ColonField(head + ":" + field + ":" + rest) == Some(field)
  {
    assert head + ":"[..0] == head;
    AbsentCharNoMatch(head, ":", 0);
    AbsentCharNoMatch(field, ":", 0);
    SplitCons(head, ":", field);
    SplitSingle(field, ":");
    assert head + ":" + field + ":" + rest == head + ":" + (field + ":" + rest);
    SplitCons(head, ":", field + ":" + rest);
    assert field + ":"[..0] == field;
    SplitCons(field, ":", rest);
  }

  /**
   * `parseICS`'s tests on a line, in its order. Here too no line starts
   * with two of the prefixes, so each kind is chosen exactly on its prefix;
   * DTSTART and DTEND need no colon after the name and keep the text after
   * the first colon, up to a next one.
   */
  function ClassifyLoose(line: string): (r: LineKind)
    ensures r == BeginEvent <==> StartsWith(line, "BEGIN:VEVENT")
    ensures r.Summary? <==> StartsWith(line, "SUMMARY:")
    ensures r.Start? <==> StartsWith(line, "DTSTART")
    ensures r.End? <==> StartsWith(line, "DTEND")
    ensures r == EndEvent <==> StartsWith(line, "END:VEVENT")
    ensures r.Summary? ==> r.text == line[8..]
    ensures r.Start? || r.End? ==> r.token == ColonField(line)
  {
    LineHeads(line);
    if StartsWith(line, "BEGIN:VEVENT") then BeginEvent
    else if StartsWith(line, "SUMMARY:") then
      ReplacePrefix(line, "SUMMARY:");
      Summary(ReplaceFirst(line, "SUMMARY:", ""))
    else if StartsWith(line, "DTSTART") then Start(ColonField(line))
    else if StartsWith(line, "DTEND") then End(ColonField(line))
    else if StartsWith(line, "END:VEVENT") then EndEvent
    else Other
  }

  /**
   * `parseICS` accepts parameters between the property name and the colon
   * (`DTSTART;TZID=Europe/Amsterdam:20240101T081500`) and keeps the value
   * after the colon.
   */
  lemma LooseDateLines(params: string, token: string)
    requires ':' !in params && ':' !in token
    ensures ClassifyLoose("DTSTART" + params + ":" + token) == Start(Some(token))
    ensures ClassifyLoose("DTEND" + params + ":" + token) == End(Some(token))
  {
    LooseStartKind("DTSTART" + params, token);
    LooseEndKind("DTEND" + params, token);
  }

  lemma LooseStartKind(name: string, token: string)
    requires StartsWith(name, "DTSTART") && ':' !in name && ':' !in token
    ensures ClassifyLoose(name + ":" + token) == Start(Some(token))
  {
    var s := name + ":" + token;
    assert s[..7] == name[..7] == "DTSTART";
    assert s[0] == 'D' && s[1] == 'T';
    assert !StartsWith(s, "BEGIN:VEVENT") && !StartsWith(s, "SUMMARY:");
    ColonFieldOf(name, token, "");
  }

  lemma LooseEndKind(name: string, token: string)
    requires StartsWith(name, "DTEND") && ':' !in name && ':' !in token
    ensures ClassifyLoose(name + ":" + token) == End(Some(token))
  {
    var e := name + ":" + token;
    assert e[..5] == name[..5] == "DTEND";
    assert e[0] == 'D' && e[1] == 'T' && e[2] == 'E';
    assert !StartsWith(e, "BEGIN:VEVENT") && !StartsWith(e, "SUMMARY:") && !StartsWith(e, "DTSTART");
    ColonFieldOf(name, token, "");
  }

  /**
   * The parser's variables: the result array `events`, the accumulator
   * `event`, and how many of the last entries of `events` are that same
   * object.
   */
  datatype ParserState = ParserState(events: seq<LessonEvent>, event: LessonEvent, shared: nat)

  const InitialState := ParserState([], NoEvent, 0)

  predicate Coherent(st: ParserState)
  {
    st.shared <= |st.events|
    && forall j :: |st.events| - st.shared <= j < |st.events| ==> st.events[j] == st.event
  }

  /** `n` copies of the event. */
  function Copies(e: LessonEvent, n: nat): (r: seq<LessonEvent>)
    ensures |r| == n && forall j :: 0 <= j < n ==> r[j] == e
  {
    if n == 0 then [] else Copies(e, n - 1) + [e]
  }

  /** The accumulator changes, and so do the entries of `events` that are it. */
  function Update(st: ParserState, e: LessonEvent): (r: ParserState)
    requires st.shared <= |st.events|
    ensures r.event == e && r.shared == st.shared && |r.events| == |st.events|
    ensures r.events[..|st.events| - st.shared] == st.events[..|st.events| - st.shared]
  {
    var kept := st.events[..|st.events| - st.shared];
    assert (kept + Copies(e, st.shared))[..|kept|] == kept;
    ParserState(kept + Copies(e, st.shared), e, st.shared)
  }

  /** One line handled; `strict` selects `parseICalendar`'s summary rule (trimmed and split), otherwise `parseICS`'s (kept as it stands). */
  function Step(st: ParserState, kind: LineKind, strict: bool): (r: ParserState)
    requires st.shared <= |st.events|
    ensures r.shared <= |r.events|
    ensures |r.events| == |st.events| + (if kind == EndEvent then 1 else 0)
    ensures r.events[..|st.events| - st.shared] == st.events[..|st.events| - st.shared]
    ensures kind != BeginEvent && kind != EndEvent ==> r.shared == st.shared
    ensures kind == Other ==> r == st
    ensures kind == BeginEvent ==> r == ParserState(st.events, NoEvent, 0)
    ensures kind == EndEvent ==> r == ParserState(st.events + [st.event], st.event, st.shared + 1)
    ensures kind.Summary? ==>
      r.event == if strict then WithSummary(st.event, Trim(kind.text)) else st.event.(summary := Some(kind.text))
    ensures kind.Start? ==> r.event == st.event.(start := kind.token)
    ensures kind.End? ==> r.event == st.event.(end := kind.token)
    ensures kind.Summary? || kind.Start? || kind.End? ==>
      forall j :: |st.events| - st.shared <= j < |r.events| ==> r.events[j] == r.event
  {
    match kind
    case BeginEvent => ParserState(st.events, NoEvent, 0)
    case EndEvent =>
      assert (st.events + [st.event])[..|st.events| - st.shared] == st.events[..|st.events| - st.shared];
      ParserState(st.events + [st.event], st.event, st.shared + 1)
    case Summary(text) =>
      if strict then Update(st, WithSummary(st.event, Trim(text)))
      else Update(st, st.event.(summary := Some(text)))
    case Start(token) => Update(st, st.event.(start := token))
    case End(token) => Update(st, st.event.(end := token))
    case Other => st
  }

  /** The tests of `parseICalendar` when `strict`, those of `parseICS` otherwise. */
  function Kind(line: string, strict: bool): LineKind
  {
    if strict then ClassifyStrict(line) else ClassifyLoose(line)
  }

  /** The state after the lines, starting from `st`. */
  function Run(st: ParserState, lines: seq<string>, strict: bool): (r: ParserState)
    requires Coherent(st)
    ensures Coherent(r)
    decreases |lines|
  {
    if lines == [] then st
    else
      var prev := Run(st, lines[..|lines| - 1], strict);
      StepCoherent(prev, Kind(lines[|lines| - 1], strict), strict);
      Step(prev, Kind(lines[|lines| - 1], strict), strict)
  }

  /** One more line is one more step. */
  lemma RunSnoc(st: ParserState, lines: seq<string>, i: int, strict: bool)
    requires Coherent(st) && 0 <= i < |lines|
    ensures Run(st, lines[..i + 1], strict) == Step(Run(st, lines[..i], strict), Kind(lines[i], strict), strict)
  {
    assert lines[..i + 1][..i] == lines[..i];
  }

  lemma StepCoherent(st: ParserState, kind: LineKind, strict: bool)
    requires Coherent(st)
    ensures Coherent(Step(st, kind, strict))
  {
  }

  function IsEndLine(line: string, strict: bool): bool
  {
    Kind(line, strict) == EndEvent
  }

  /** How many lines start with `END:VEVENT`. */
  function CountEndLines(lines: seq<string>): nat
  {
    if lines == [] then 0
    else CountEndLines(lines[..|lines| - 1]) + (if StartsWith(lines[|lines| - 1], "END:VEVENT") then 1 else 0)
  }

  /** Both parsers see END:VEVENT exactly on the lines that start with it. */
  lemma EndKind(line: string, strict: bool)
    ensures IsEndLine(line, strict) <==> StartsWith(line, "END:VEVENT")
  {
    if StartsWith(line, "END:VEVENT") {
      assert line[0] == 'E';
      assert !StartsWith(line, "BEGIN:VEVENT") by { assert "BEGIN:VEVENT"[0] == 'B'; }
      assert !StartsWith(line, "SUMMARY:") by { assert "SUMMARY:"[0] == 'S'; }
      assert !StartsWith(line, "DTSTART") by { assert "DTSTART"[0] == 'D'; }
      assert !StartsWith(line, "DTEND") by { assert "DTEND"[0] == 'D'; }
    }
  }

  /** The number of events returned equals the number of lines that start with `END:VEVENT`. */
  lemma {:induction false} EventCount(lines: seq<string>, strict: bool)
    ensures |Run(InitialState, lines, strict).events| == CountEndLines(lines)
    decreases |lines|
  {
    if lines != [] {
      var init := lines[..|lines| - 1];
      EventCount(init, strict);
      var last := lines[|lines| - 1];
      EndKind(last, strict);
    }
  }

  lemma {:induction false} RunAppend(st: ParserState, a: seq<string>, b: seq<string>, strict: bool)
    requires Coherent(st)
    ensures Run(st, a + b, strict) == Run(Run(st, a, strict), b, strict)
    decreases |b|
  {
    if b == [] {
      assert a + b == a;
    } else {
      assert (a + b)[..|a + b| - 1] == a + b[..|b| - 1];
      RunAppend(st, a, b[..|b| - 1], strict);
    }
  }

  /** A field line changes the accumulator only; it is neither BEGIN:VEVENT nor END:VEVENT. */
  predicate IsFieldLine(line: string, strict: bool)
  {
    Kind(line, strict) != BeginEvent && Kind(line, strict) != EndEvent
  }

  /** The accumulator built by field lines, starting from `{}`. */
  function Accumulate(lines: seq<string>, strict: bool): LessonEvent
  {
    Run(ParserState([], NoEvent, 0), lines, strict).event
  }

  lemma {:induction false} FieldLinesKeepEvents(st: ParserState, lines: seq<string>, strict: bool)
    requires Coherent(st) && st.shared == 0
    requires forall i :: 0 <= i < |lines| ==> IsFieldLine(lines[i], strict)
    ensures Run(st, lines, strict).events == st.events && Run(st, lines, strict).shared == 0
    ensures Run(st, lines, strict).event == Run(ParserState([], st.event, 0), lines, strict).event
    decreases |lines|
  {
    if lines != [] {
      var init, last := lines[..|lines| - 1], lines[|lines| - 1];
      FieldLinesKeepEvents(st, init, strict);
      assert IsFieldLine(last, strict);
      FieldStep(Run(st, init, strict), Run(ParserState([], st.event, 0), init, strict), Kind(last, strict), strict);
    }
  }

  /** A field line with nothing shared changes only the accumulator, and the same way from any state with that accumulator. */
  lemma FieldStep(a: ParserState, b: ParserState, kind: LineKind, strict: bool)
    requires a.shared == 0 && b.shared <= |b.events| && a.event == b.event
    requires kind != BeginEvent && kind != EndEvent
    ensures Step(a, kind, strict).events == a.events && Step(a, kind, strict).shared == 0
    ensures Step(a, kind, strict).event == Step(b, kind, strict).event
  {
    assert a.events[..|a.events| - 0] == a.events;
  }

  /**
   * A VEVENT block whose body has no BEGIN:VEVENT or END:VEVENT line adds
   * exactly one event, the one its field lines build from `{}`, after the
   * events parsed before it.
   */
  lemma {:induction false} BlockAddsOneEvent(pre: seq<string>, body: seq<string>, strict: bool)
    requires forall i :: 0 <= i < |body| ==> IsFieldLine(body[i], strict)
    ensures Run(InitialState, pre + ["BEGIN:VEVENT"] + body + ["END:VEVENT"], strict).events
         == Run(InitialState, pre, strict).events + [Accumulate(body, strict)]
  {
    var before := Run(InitialState, pre, strict);
    RunAppend(InitialState, pre + ["BEGIN:VEVENT"] + body, ["END:VEVENT"], strict);
    RunAppend(InitialState, pre + ["BEGIN:VEVENT"], body, strict);
    RunAppend(InitialState, pre, ["BEGIN:VEVENT"], strict);
    BeginLine(before, strict);
    var begun := Run(before, ["BEGIN:VEVENT"], strict);
    FieldLinesKeepEvents(begun, body, strict);
    EndLine(Run(begun, body, strict), strict);
  }

  lemma BeginLine(st: ParserState, strict: bool)
    requires Coherent(st)
    ensures Run(st, ["BEGIN:VEVENT"], strict) == ParserState(st.events, NoEvent, 0)
  {
    assert StartsWith("BEGIN:VEVENT", "BEGIN:VEVENT");
    assert ["BEGIN:VEVENT"][..0] == [];
  }

  lemma EndLine(st: ParserState, strict: bool)
    requires Coherent(st)
    ensures Run(st, ["END:VEVENT"], strict).events == st.events + [st.event]
  {
    EndKind("END:VEVENT", strict);
    assert ["END:VEVENT"][..0] == [];
  }

  /** `BEGIN:VEVENT` resets the accumulator to `{}` and ends the sharing. */
  lemma BeginResets(st: ParserState, lines: seq<string>, strict: bool)
    requires Coherent(st) && |lines| > 0 && StartsWith(lines[|lines| - 1], "BEGIN:VEVENT")
    ensures Run(st, lines, strict).event == NoEvent && Run(st, lines, strict).shared == 0
    ensures Run(st, lines, strict).events == Run(st, lines[..|lines| - 1], strict).events
  {
  }

  /** `DTSTART:` and `DTEND:` store the rest of the line as it stands, without decoding it. */
  lemma StrictDateLines(st: ParserState, token: string)
    requires Coherent(st)
    ensures Step(st, ClassifyStrict("DTSTART:" + token), true).event == st.event.(start := Some(token))
    ensures Step(st, ClassifyStrict("DTEND:" + token), true).event == st.event.(end := Some(token))
  {
    StartLineKind(token);
    EndLineKind(token);
  }

  lemma StartLineKind(token: string)
    ensures ClassifyStrict("DTSTART:" + token) == Start(Some(token))
  {
    var s := "DTSTART:" + token;
    assert s[..8] == "DTSTART:";
    assert s[0] == 'D' && s[1] == 'T';
    assert !StartsWith(s, "BEGIN:VEVENT") && !StartsWith(s, "END:VEVENT") && !StartsWith(s, "SUMMARY:");
    ReplacePrefix(s, "DTSTART:");
    assert s[8..] == token;
  }

  lemma EndLineKind(token: string)
    ensures ClassifyStrict("DTEND:" + token) == End(Some(token))
  {
    var e := "DTEND:" + token;
    assert e[..6] == "DTEND:";
    assert e[0] == 'D' && e[1] == 'T' && e[2] == 'E';
    assert !StartsWith(e, "BEGIN:VEVENT") && !StartsWith(e, "END:VEVENT") && !StartsWith(e, "SUMMARY:")
        && !StartsWith(e, "DTSTART:");
    ReplacePrefix(e, "DTEND:");
    assert e[6..] == token;
  }

  /** Both parsers read a `SUMMARY:` line as a summary carrying the rest of the line. */
  lemma SummaryLineKind(t: string)
    ensures ClassifyStrict("SUMMARY:" + t) == Summary(t)
    ensures ClassifyLoose("SUMMARY:" + t) == Summary(t)
  {
    var s := "SUMMARY:" + t;
    assert s[..8] == "SUMMARY:" && s[8..] == t;
  }

  /**
   * `parseICalendar` on `SUMMARY:` + t: the accumulator gets the trimmed
   * text and its decomposition, and the entries that are the accumulator
   * show it too.
   */
  lemma StrictSummaryLine(st: ParserState, t: string)
    requires Coherent(st)
    ensures var r := Step(st, ClassifyStrict("SUMMARY:" + t), true);
      r.event == WithSummary(st.event, Trim(t)) && r.shared == st.shared && Coherent(r)
  {
    SummaryLineKind(t);
    StepCoherent(st, Summary(t), true);
  }

  /** `parseICS` on `SUMMARY:` + t: the summary is the rest of the line as it stands, and nothing else changes. */
  lemma LooseSummaryLine(st: ParserState, t: string)
    requires Coherent(st)
    ensures var r := Step(st, ClassifyLoose("SUMMARY:" + t), false);
      r.event == st.event.(summary := Some(t)) && r.shared == st.shared && Coherent(r)
  {
    SummaryLineKind(t);
    StepCoherent(st, Summary(t), false);
  }

  /** `parseICS` on a date line with parameters: the field after the colon is stored. */
  lemma LooseDateSteps(st: ParserState, params: string, token: string)
    requires Coherent(st) && ':' !in params && ':' !in token
    ensures Step(st, ClassifyLoose("DTSTART" + params + ":" + token), false).event == st.event.(start := Some(token))
    ensures Step(st, ClassifyLoose("DTEND" + params + ":" + token), false).event == st.event.(end := Some(token))
  {
    LooseDateLines(params, token);
  }

  /** `parseICS` on a date line without a colon: `split(":")[1]` is undefined, and so becomes the property. */
  lemma LooseDateNoColon(st: ParserState, line: string)
    requires Coherent(st) && ':' !in line
    ensures StartsWith(line, "DTSTART") ==> Step(st, ClassifyLoose(line), false).event == st.event.(start := None)
    ensures StartsWith(line, "DTEND") ==> Step(st, ClassifyLoose(line), false).event == st.event.(end := None)
  {
    AbsentCharNoMatch(line, ":", 0);
  }

  /** A line that starts with none of the prefixes the parser tests. */
  predicate Unrecognised(line: string, strict: bool)
  {
    && !StartsWith(line, "BEGIN:VEVENT") && !StartsWith(line, "END:VEVENT") && !StartsWith(line, "SUMMARY:")
    && if strict then !StartsWith(line, "DTSTART:") && !StartsWith(line, "DTEND:")
       else !StartsWith(line, "DTSTART") && !StartsWith(line, "DTEND")
  }

  /** A line is `Other` exactly when it is unrecognised, and such a line leaves the whole state as it was. */
  lemma UnrecognisedLine(st: ParserState, line: string, strict: bool)
    requires st.shared <= |st.events|
    ensures Kind(line, strict) == Other <==> Unrecognised(line, strict)
    ensures Unrecognised(line, strict) ==> Step(st, Kind(line, strict), strict) == st
  {
  }

  /** One more line at the end is one more step. */
  lemma RunSnocLine(st: ParserState, lines: seq<string>, line: string, strict: bool)
    requires Coherent(st)
    ensures Run(st, lines + [line], strict) == Step(Run(st, lines, strict), Kind(line, strict), strict)
  {
    assert (lines + [line])[..|lines|] == lines;
  }

  /** The accumulator that three field lines build from `{}`. */
  lemma AccumulateThree(a: string, b: string, c: string, strict: bool)
    ensures Accumulate([a, b, c], strict)
         == Step(Step(Step(InitialState, Kind(a, strict), strict), Kind(b, strict), strict), Kind(c, strict), strict).event
  {
    ThreeLines(a, b, c);
    RunSnocLine(InitialState, [], a, strict);
    RunSnocLine(InitialState, [a], b, strict);
    RunSnocLine(InitialState, [a, b], c, strict);
  }

  lemma ThreeLines<T>(a: T, b: T, c: T)
    ensures [] + [a] == [a] && [a] + [b] == [a, b] && [a, b] + [c] == [a, b, c]
  {
  }

  /** A block of three field lines adds the event those lines build from `{}`. */
  lemma BlockOfThree(pre: seq<string>, a: string, b: string, c: string, strict: bool)
    requires IsFieldLine(a, strict) && IsFieldLine(b, strict) && IsFieldLine(c, strict)
    ensures Run(InitialState, pre + ["BEGIN:VEVENT", a, b, c, "END:VEVENT"], strict).events
         == Run(InitialState, pre, strict).events
            + [Step(Step(Step(InitialState, Kind(a, strict), strict), Kind(b, strict), strict), Kind(c, strict), strict).event]
  {
    var body := [a, b, c];
    FieldLinesThree(a, b, c, strict);
    BlockAddsOneEvent(pre, body, strict);
    AccumulateThree(a, b, c, strict);
    BlockLines(pre, "BEGIN:VEVENT", a, b, c, "END:VEVENT");
  }

  lemma FieldLinesThree(a: string, b: string, c: string, strict: bool)
    requires IsFieldLine(a, strict) && IsFieldLine(b, strict) && IsFieldLine(c, strict)
    ensures forall i :: 0 <= i < |[a, b, c]| ==> IsFieldLine([a, b, c][i], strict)
  {
    forall i | 0 <= i < 3 ensures IsFieldLine([a, b, c][i], strict) {
      assert [a, b, c][i] == if i == 0 then a else if i == 1 then b else c;
    }
  }

  lemma BlockLines<T>(pre: seq<T>, open: T, a: T, b: T, c: T, close: T)
    ensures pre + [open] + [a, b, c] + [close] == pre + [open, a, b, c, close]
  {
    var u, v := pre + [open] + [a, b, c] + [close], pre + [open, a, b, c, close];
    assert |u| == |v|;
    forall i | 0 <= i < |u| ensures u[i] == v[i] {
      if i < |pre| { assert u[i] == pre[i] == v[i]; }
    }
  }

  /**
   * A `SUMMARY:`, `DTSTART:`, `DTEND:` block read by `parseICalendar` adds
   * one event: the trimmed summary with its decomposition, and the two
   * tokens as written.
   */
  lemma StrictBlockEvent(pre: seq<string>, t: string, start: string, end: string)
    ensures Run(InitialState, pre + ["BEGIN:VEVENT", "SUMMARY:" + t, "DTSTART:" + start, "DTEND:" + end, "END:VEVENT"], true).events
         == Run(InitialState, pre, true).events + [WithSummary(NoEvent, Trim(t)).(start := Some(start), end := Some(end))]
  {
    SummaryLineKind(t);
    StartLineKind(start);
    EndLineKind(end);
    BlockOfThree(pre, "SUMMARY:" + t, "DTSTART:" + start, "DTEND:" + end, true);
  }

  /**
   * The same block read by `parseICS`, with parameters allowed on the date
   * lines: the summary as written and the values after the colons.
   */
  lemma LooseBlockEvent(pre: seq<string>, t: string, ps: string, start: string, pe: string, end: string)
    requires ':' !in ps && ':' !in start && ':' !in pe && ':' !in end
    ensures Run(InitialState, pre + ["BEGIN:VEVENT", "SUMMARY:" + t, "DTSTART" + ps + ":" + start,
                                     "DTEND" + pe + ":" + end, "END:VEVENT"], false).events
         == Run(InitialState, pre, false).events + [NoEvent.(summary := Some(t), start := Some(start), end := Some(end))]
  {
    SummaryLineKind(t);
    LooseDateLines(ps, start);
    LooseDateLines(pe, end);
    BlockOfThree(pre, "SUMMARY:" + t, "DTSTART" + ps + ":" + start, "DTEND" + pe + ":" + end, false);
  }

  /** `data.split(/\r?\n/)`: lines end at a newline, and a carriage return just before it is dropped. */
  function SplitLines(data: string): (lines: seq<string>)
    ensures |lines| == |Split(data, "\n")|
    ensures forall i :: 0 <= i < |lines| ==> '\n' !in lines[i]
  {
    var pieces := Split(data, "\n");
    NoNewlines(pieces);
    LinesOf(pieces)
  }

  /** Each piece but the last loses a trailing carriage return. */
  function LinesOf(pieces: seq<string>): (lines: seq<string>)
  {
    seq(|pieces|, i requires 0 <= i < |pieces| =>
      if i < |pieces| - 1 && EndsWith(pieces[i], "\r") then pieces[i][..|pieces[i]| - 1] else pieces[i])
  }

  lemma NoNewlines(pieces: seq<string>)
    requires forall i :: 0 <= i < |pieces| ==> IndexOf(pieces[i], "\n").None?
    ensures forall i :: 0 <= i < |pieces| ==> '\n' !in LinesOf(pieces)[i]
  {
    forall i | 0 <= i < |pieces| ensures '\n' !in LinesOf(pieces)[i] {
      NoCharMatch(pieces[i], '\n');
    }
  }

  lemma LinesOfCons(line: string, tail: seq<string>)
    requires |tail| >= 1
    ensures LinesOf([line + "\r"] + tail) == [line] + LinesOf(tail)
  {
    var head := line + "\r";
    assert EndsWith(head, "\r") && head[..|head| - 1] == line;
    var pieces := [head] + tail;
    forall i | 1 <= i < |pieces| ensures LinesOf(pieces)[i] == LinesOf(tail)[i - 1] {
      assert pieces[i] == tail[i - 1];
    }
  }

  /** The first line, with its CRLF, is one piece of the split at newlines. */
  lemma SplitCrlf(line: string, rest: string)
    requires '\n' !in line
    ensures Split(line + "\r\n" + rest, "\n") == [line + "\r"] + Split(rest, "\n")
  {
    var head := line + "\r";
    assert line + "\r\n" + rest == head + "\n" + rest;
    assert head + "\n"[..0] == head;
    AbsentCharNoMatch(head, "\n", 0);
    SplitCons(head, "\n", rest);
  }

  /** A line ended by CRLF comes off the front without its carriage return. */
  lemma SplitLinesCons(line: string, rest: string)
    requires '\n' !in line
    ensures SplitLines(line + "\r\n" + rest) == [line] + SplitLines(rest)
  {
    SplitCrlf(line, rest);
    LinesOfCons(line, Split(rest, "\n"));
  }

  /** A text without a newline is one line. */
  lemma SplitLinesSingle(line: string)
    requires '\n' !in line
    ensures SplitLines(line) == [line]
  {
    AbsentCharNoMatch(line, "\n", 0);
    SplitSingle(line, "\n");
  }

  /** Lines joined with CRLF split back into the same lines. */
  lemma {:induction false} SplitLinesJoin(ls: seq<string>)
    requires |ls| >= 1 && forall i :: 0 <= i < |ls| ==> '\n' !in ls[i]
    ensures SplitLines(Join(ls, "\r\n")) == ls
    decreases |ls|
  {
    if |ls| == 1 {
      SplitLinesSingle(ls[0]);
    } else {
      assert '\n' !in ls[0];
      SplitLinesJoin(ls[1..]);
      SplitLinesCons(ls[0], Join(ls[1..], "\r\n"));
      assert ls == [ls[0]] + ls[1..];
    }
  }

  /**
   * Setting a property of the accumulator object: the last `shared` entries
   * of the result array are that object, so they show the new value too.
   */
  method SetField(events: seq<LessonEvent>, shared: nat, event': LessonEvent) returns (events': seq<LessonEvent>)
    requires shared <= |events|
    ensures |events'| == |events|
    ensures forall j :: 0 <= j < |events| - shared ==> events'[j] == events[j]
    ensures forall j :: |events| - shared <= j < |events| ==> events'[j] == event'
  {
    events' := events[..|events| - shared] + Copies(event', shared);
  }

  /**
   * The body of the parsers' `forEach`: the line's kind decides which of the
   * accumulator, the result array and the sharing count change.
   */
  method HandleLine(events: seq<LessonEvent>, event: LessonEvent, shared: nat, kind: LineKind, strict: bool)
    returns (events': seq<LessonEvent>, event': LessonEvent, shared': nat)
    requires shared <= |events|
    ensures ParserState(events', event', shared') == Step(ParserState(events, event, shared), kind, strict)
  {
    events', event', shared' := events, event, shared;
    match kind
    case BeginEvent =>
      event' := NoEvent;
      shared' := 0;
    case EndEvent =>
      events' := events + [event];
      shared' := shared + 1;
    case Summary(text) =>
      if strict {
        event' := WithSummary(event, Trim(text));
      } else {
        event' := event.(summary := Some(text));
      }
      events' := SetField(events, shared, event');
      UpdateOf(ParserState(events, event, shared), event', events');
    case Start(token) =>
      event' := event.(start := token);
      events' := SetField(events, shared, event');
      UpdateOf(ParserState(events, event, shared), event', events');
    case End(token) =>
      event' := event.(end := token);
      events' := SetField(events, shared, event');
      UpdateOf(ParserState(events, event, shared), event', events');
    case Other =>
  }

  /** The array that `SetField` leaves is the one `Update` describes. */
  lemma UpdateOf(st: ParserState, e: LessonEvent, events': seq<LessonEvent>)
    requires st.shared <= |st.events| && |events'| == |st.events|
    requires forall j :: 0 <= j < |st.events| - st.shared ==> events'[j] == st.events[j]
    requires forall j :: |st.events| - st.shared <= j < |st.events| ==> events'[j] == e
    ensures Update(st, e) == ParserState(events', e, st.shared)
  {
    var u := Update(st, e).events;
    assert |u| == |events'|;
    forall j | 0 <= j < |u| ensures u[j] == events'[j] {
      var cut := |st.events| - st.shared;
      if j < cut { assert u[j] == st.events[j]; } else { assert u[j] == Copies(e, st.shared)[j - cut]; }
    }
  }

  /**
   * The `lines.forEach` loop of both parsers, with the tests of
   * `parseICalendar` when `strict` and those of `parseICS` otherwise; it
   * returns the events it collected.
   */
  method ParseLines(lines: seq<string>, strict: bool) returns (events: seq<LessonEvent>)
    ensures events == Run(InitialState, lines, strict).events
    ensures |events| == CountEndLines(lines)
  {
    events := [];
    var event := NoEvent;
    var shared := 0;
    var i := 0;
    while i < |lines|
      invariant 0 <= i <= |lines|
      invariant ParserState(events, event, shared) == Run(InitialState, lines[..i], strict)
    {
      RunSnoc(InitialState, lines, i, strict);
      events, event, shared := HandleLine(events, event, shared, Kind(lines[i], strict), strict);
      i := i + 1;
    }
    assert lines[..|lines|] == lines;
    EventCount(lines, strict);
  }

  /** `parseICalendar(data)`: the lines split at `\r?\n`, read with its tests. */
  method ParseICalendar(data: string) returns (events: seq<LessonEvent>)
    ensures events == Run(InitialState, SplitLines(data), true).events
    ensures |events| == CountEndLines(SplitLines(data))
  {
    events := ParseLines(SplitLines(data), true);
  }

  /** `parseICS(data)`: the lines split at each newline, read with its tests. */
  method ParseIcs(data: string) returns (events: seq<LessonEvent>)
    ensures events == Run(InitialState, Split(data, "\n"), false).events
    ensures |events| == CountEndLines(Split(data, "\n"))
  {
    events := ParseLines(Split(data, "\n"), false);
  }
}
