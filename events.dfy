/** The event filter `find_week_events` (scripts/post_daily.py:95-120): every
    record is read through lists of column-name aliases, its date cell is
    parsed in the year of the week's earliest date, and the rows whose date
    falls in the week and whose time cell is not empty become events, in row
    order. */
module Events {
  import opened Wrappers
  import opened Dates
  import opened Text
  import opened DateParser
  import opened Records
  import opened Week

  const DateAliases: seq<string> := ["日付", "date", "Date"]
  const TimeAliases: seq<string> := ["テスト時間", "time", "Time"]
  const ContentAliases: seq<string> := ["内容", "content"]
  const PersonAliases: seq<string> := ["担当", "person"]

  /** `row.get(a1) or row.get(a2) or ... or ''`: the first alias whose cell is
      present and not empty wins; with none, the field is empty. */
  function Lookup(row: Record, aliases: seq<string>): (r: string)
    ensures r == "" <==> forall i :: 0 <= i < |aliases| ==> aliases[i] !in row || row[aliases[i]] == ""
    ensures r != "" ==> exists i :: (0 <= i < |aliases| && aliases[i] in row && row[aliases[i]] == r
      && forall j :: 0 <= j < i ==> aliases[j] !in row || row[aliases[j]] == "")
  {
    if |aliases| == 0 then ""
    else if aliases[0] in row && row[aliases[0]] != "" then row[aliases[0]]
    else
      var r := Lookup(row, aliases[1..]);
      assert forall i :: 1 <= i < |aliases| ==> aliases[i] == aliases[1..][i - 1];
      if r != "" then
        var i :| 0 <= i < |aliases| - 1 && aliases[1..][i] in row && row[aliases[1..][i]] == r
          && forall j :: 0 <= j < i ==> aliases[1..][j] !in row || row[aliases[1..][j]] == "";
        assert aliases[i + 1] == aliases[1..][i];
        r
      else r
  }

  /** An event as `find_week_events` appends it, with the record it came from. */
  datatype Event = Event(date: Date, time: string, content: string, person: string, row: Record)

  /** What the loop body does with one record: the event it appends, if any. */
  function RowEvent(row: Record, weekDates: set<Date>, referenceYear: int, fallback: Fallback): (r: Option<Event>)
    ensures r.Some? ==> r.value.row == row && r.value.date in weekDates && r.value.time != ""
  {
    var dateStr := Lookup(row, DateAliases);
    var timeStr := Lookup(row, TimeAliases);
    var content := Lookup(row, ContentAliases);
    var person := Lookup(row, PersonAliases);
    if dateStr == "" then None
    else
      match ParseDateStr(Text(Strip(dateStr)), referenceYear, fallback)
      case None => None
      case Some(d) =>
        if d in weekDates && timeStr != "" then Some(Event(d, timeStr, content, person, row)) else None
  }

  /** The events of a record list, in the order of the records. */
  function WeekEvents(records: seq<Record>, weekDates: set<Date>, referenceYear: int, fallback: Fallback): (r: seq<Event>)
    ensures |r| <= |records|
  {
    if |records| == 0 then []
    else
      var init := WeekEvents(records[..|records| - 1], weekDates, referenceYear, fallback);
      match RowEvent(records[|records| - 1], weekDates, referenceYear, fallback)
      case None => init
      case Some(e) => init + [e]
  }

  /** `min(week_dates)`. */
  method MinDate(dates: set<Date>) returns (m: Date)
    requires dates != {}
    ensures IsMinimum(m, dates)
  {
    m :| m in dates;
    var rest := dates - {m};
    while rest != {}
      invariant rest <= dates && m in dates
      invariant forall d :: d in dates && d !in rest ==> AtMost(m, d)
      decreases rest
    {
      var d :| d in rest;
      if Before(d, m) {
        m := d;
      }
      rest := rest - {d};
    }
  }

  /** A set of dates has one minimum. */
  lemma MinimumUnique(a: Date, b: Date, dates: set<Date>)
    requires IsMinimum(a, dates) && IsMinimum(b, dates)
    ensures a == b
  {
  }

  /** `find_week_events(records, week_dates)`. Python's `min` raises on an
      empty set, which the precondition excludes. */
  method FindWeekEvents(records: seq<Record>, weekDates: set<Date>, fallback: Fallback) returns (events: seq<Event>)
    requires weekDates != {}
    ensures exists m :: IsMinimum(m, weekDates)
    ensures forall m :: IsMinimum(m, weekDates) ==> events == WeekEvents(records, weekDates, m.year, fallback)
  {
    events := [];
    var monday := MinDate(weekDates);
    var referenceYear := monday.year;
    for i := 0 to |records|
      invariant events == WeekEvents(records[..i], weekDates, referenceYear, fallback)
    {
      assert records[..i + 1][..i] == records[..i];
      var row := records[i];
      var dateStr := Lookup(row, DateAliases);
      var timeStr := Lookup(row, TimeAliases);
      var content := Lookup(row, ContentAliases);
      var person := Lookup(row, PersonAliases);
      if dateStr == "" {
        continue;
      }
      var d := ParseDateStr(Text(Strip(dateStr)), referenceYear, fallback);
      if d.None? {
        continue;
      }
      if d.value in weekDates {
        if timeStr != "" {
          events := events + [Event(d.value, timeStr, content, person, row)];
        }
      }
    }
    assert records[..|records|] == records;
    forall m | IsMinimum(m, weekDates)
      ensures m == monday
    {
      MinimumUnique(m, monday, weekDates);
    }
  }

  // ---------------------------------------------------------------------------

  /** The events of two record lists laid end to end are the events of the
      first list followed by those of the second: the output keeps row order. */
  lemma {:induction false} WeekEventsAppend(rs1: seq<Record>, rs2: seq<Record>, weekDates: set<Date>, referenceYear: int, fallback: Fallback)
    ensures WeekEvents(rs1 + rs2, weekDates, referenceYear, fallback)
      == WeekEvents(rs1, weekDates, referenceYear, fallback) + WeekEvents(rs2, weekDates, referenceYear, fallback)
    decreases |rs2|
  {
    if |rs2| == 0 {
      assert rs1 + rs2 == rs1;
    } else {
      var init2 := rs2[..|rs2| - 1];
      assert (rs1 + rs2)[..|rs1 + rs2| - 1] == rs1 + init2;
      WeekEventsAppend(rs1, init2, weekDates, referenceYear, fallback);
    }
  }

  /** One record gives at most one event, the one its loop iteration appends. */
  lemma WeekEventsSingle(row: Record, weekDates: set<Date>, referenceYear: int, fallback: Fallback)
    ensures WeekEvents([row], weekDates, referenceYear, fallback)
      == match RowEvent(row, weekDates, referenceYear, fallback) case None => [] case Some(e) => [e]
  {
    assert [row][..0] == [];
  }

  /** What a record's data must be for it to yield `e`: the event's fields are
      the record's alias lookups, its date cell is not empty and parses to a
      date of the week, and its time cell is not empty. */
  predicate Admits(row: Record, e: Event, weekDates: set<Date>, referenceYear: int, fallback: Fallback) {
    && e.row == row
    && Lookup(row, DateAliases) != ""
    && ParseDateStr(Text(Strip(Lookup(row, DateAliases))), referenceYear, fallback) == Some(e.date)
    && e.date in weekDates
    && e.time == Lookup(row, TimeAliases) && e.time != ""
    && e.content == Lookup(row, ContentAliases)
    && e.person == Lookup(row, PersonAliases)
  }

  lemma RowEventAdmits(row: Record, e: Event, weekDates: set<Date>, referenceYear: int, fallback: Fallback)
    ensures RowEvent(row, weekDates, referenceYear, fallback) == Some(e) <==> Admits(row, e, weekDates, referenceYear, fallback)
  {
  }

  /** An event is in the output exactly when it is the event of one of the records. */
  lemma {:induction false} WeekEventsMembership(records: seq<Record>, e: Event, weekDates: set<Date>, referenceYear: int, fallback: Fallback)
    ensures e in WeekEvents(records, weekDates, referenceYear, fallback)
      <==> e.row in records && RowEvent(e.row, weekDates, referenceYear, fallback) == Some(e)
  {
    if |records| > 0 {
      var init := records[..|records| - 1];
      var last := records[|records| - 1];
      WeekEventsMembership(init, e, weekDates, referenceYear, fallback);
      WeekEventsLastMember(records, e, weekDates, referenceYear, fallback);
      InSnoc(records, e.row);
    }
  }

  lemma InSnoc<T>(s: seq<T>, x: T)
    requires |s| > 0
    ensures x in s <==> x in s[..|s| - 1] || x == s[|s| - 1]
  {
    assert s == s[..|s| - 1] + [s[|s| - 1]];
  }

  /** The filter is sound and drops nothing else: an event is in the output
      exactly when it comes from one of the records and that record admits it. */
  lemma WeekEventsAdmitted(records: seq<Record>, e: Event, weekDates: set<Date>, referenceYear: int, fallback: Fallback)
    ensures e in WeekEvents(records, weekDates, referenceYear, fallback)
      <==> e.row in records && Admits(e.row, e, weekDates, referenceYear, fallback)
  {
    WeekEventsMembership(records, e, weekDates, referenceYear, fallback);
    RowEventAdmits(e.row, e, weekDates, referenceYear, fallback);
  }

  lemma WeekEventsLastMember(records: seq<Record>, e: Event, weekDates: set<Date>, referenceYear: int, fallback: Fallback)
    requires |records| > 0
    ensures e in WeekEvents(records, weekDates, referenceYear, fallback)
      <==> (e in WeekEvents(records[..|records| - 1], weekDates, referenceYear, fallback)
        || RowEvent(records[|records| - 1], weekDates, referenceYear, fallback) == Some(e))
  {
  }

  /** Every event of the output lies in the week and has a time. */
  lemma WeekEventsInWeek(records: seq<Record>, weekDates: set<Date>, referenceYear: int, fallback: Fallback)
    ensures forall e :: e in WeekEvents(records, weekDates, referenceYear, fallback) ==> e.date in weekDates && e.time != ""
  {
    forall e | e in WeekEvents(records, weekDates, referenceYear, fallback)
      ensures e.date in weekDates && e.time != ""
    {
      WeekEventsAdmitted(records, e, weekDates, referenceYear, fallback);
    }
  }

  // ---------------------------------------------------------------------------
  // The week of a Monday

  /** For the week `build_week_dates(monday)` builds, `min` picks the Monday, so
      the date cells are read in the Monday's year. */
  lemma WeekMinimum(monday: Date)
    requires BuildWeekDates(monday).Some?
    ensures forall m :: IsMinimum(m, BuildWeekDates(monday).value) <==> m == monday
  {
    WeekHasSevenDays(monday);
    forall m | IsMinimum(m, BuildWeekDates(monday).value)
      ensures m == monday
    {
      MinimumUnique(m, monday, BuildWeekDates(monday).value);
    }
  }

  /** Dates two calendar years apart are more than a year of days apart. */
  lemma YearGap(a: Date, b: Date)
    requires b.year >= a.year + 2
    ensures Ordinal(b) >= Ordinal(a) + 365
  {
    WithinYear(a);
    WithinYear(b);
    YearStep(a.year);
    YearsGrow(a.year + 1, b.year);
  }

  /** A week's dates lie in its Monday's year or in its Sunday's, and the
      Sunday's year is at most one more. */
  lemma WeekYears(monday: Date, sunday: Date, d: Date)
    requires BuildWeekDates(monday).Some? && d in BuildWeekDates(monday).value
    requires AddDays(monday, 6) == Some(sunday)
    ensures sunday.year == monday.year || sunday.year == monday.year + 1
    ensures d.year == monday.year || d.year == sunday.year
  {
    WeekDatesExactly(monday, d);
    AddDaysOrdinal(monday, 6);
    OrdinalMonotone(d, monday);
    OrdinalMonotone(sunday, d);
    if sunday.year >= monday.year + 2 {
      YearGap(monday, sunday);
    }
  }

  /** A day of the week that falls in the next year is early in January, and
      the Monday is late in December. */
  lemma NewYearWeek(monday: Date, d: Date)
    requires BuildWeekDates(monday).Some? && d in BuildWeekDates(monday).value
    requires d.year == monday.year + 1
    ensures d.month == 1 && d.day <= 6
    ensures Ordinal(YMD(monday.year, 1, d.day)) < Ordinal(monday)
  {
    WeekDatesExactly(monday, d);
    WithinYear(monday);
    YearStep(monday.year);
  }

  /** The row whose date cell is the `M/D` text of `d`. */
  predicate DateCellNames(row: Record, d: Date) {
    Lookup(row, DateAliases) == DateLabel(d)
  }

  /** A date's `M/D` text is its own strip and is never empty. */
  lemma DateLabelStripped(d: Date)
    ensures DateLabel(d) != "" && Strip(DateLabel(d)) == DateLabel(d)
  {
    var s := DateLabel(d);
    assert '0' <= s[0] <= '9' && '0' <= s[|s| - 1] <= '9';
    StripUnchanged(s);
  }

  /** As written: in a week that crosses New Year, a row whose date cell is the
      `M/D` text of one of the January days is read in the Monday's year, lands
      a year before the week, and yields no event. */
  lemma NextYearDayDropped(monday: Date, sunday: Date, d: Date, row: Record, fallback: Fallback)
    requires BuildWeekDates(monday).Some? && d in BuildWeekDates(monday).value
    requires AddDays(monday, 6) == Some(sunday)
    requires d.year != monday.year && DateCellNames(row, d)
    ensures RowEvent(row, BuildWeekDates(monday).value, monday.year, fallback) == None
  {
    var week := BuildWeekDates(monday).value;
    WeekYears(monday, sunday, d);
    NewYearWeek(monday, d);
    var x := YMD(monday.year, 1, d.day);
    DateLabelStripped(d);
    assert DateLabel(d) + [] == DateLabel(d);
    LabelParses(d, [], monday.year, fallback);
    WeekDatesExactly(monday, x);
  }

  /** The same failure for the week of Monday 29 December 2025: the cell "1/2"
      names 2 January 2026, a day of that week, and gives no event. */
  lemma NewYearExample(row: Record, fallback: Fallback)
    requires Lookup(row, DateAliases) == "1/2"
    ensures Weekday(YMD(2025, 12, 29)) == 0
    ensures BuildWeekDates(YMD(2025, 12, 29)).Some?
    ensures YMD(2026, 1, 2) in BuildWeekDates(YMD(2025, 12, 29)).value
    ensures RowEvent(row, BuildWeekDates(YMD(2025, 12, 29)).value, 2025, fallback) == None
  {
    var monday: Date := YMD(2025, 12, 29);
    var d: Date := YMD(2026, 1, 2);
    NewYearWeekFacts();
    NewYearLabel();
    NextYearDayDropped(monday, AddDays(monday, 6).value, d, row, fallback);
  }

  lemma NewYearWeekFacts()
    ensures Weekday(YMD(2025, 12, 29)) == 0
    ensures AddDays(YMD(2025, 12, 29), 6).Some?
    ensures BuildWeekDates(YMD(2025, 12, 29)).Some?
    ensures YMD(2026, 1, 2) in BuildWeekDates(YMD(2025, 12, 29)).value
  {
    NewYearOrdinals();
    AddDaysOrdinal(YMD(2025, 12, 29), 6);
    WeekDatesExactly(YMD(2025, 12, 29), YMD(2026, 1, 2));
  }

  lemma NewYearLabel()
    ensures DateLabel(YMD(2026, 1, 2)) == "1/2"
  {
    assert NatToString(1) == "1" && NatToString(2) == "2";
  }

  lemma NewYearOrdinals()
    ensures Ordinal(YMD(2025, 12, 29)) == 739614 && Ordinal(YMD(2026, 1, 2)) == 739618
  {
    assert DaysBeforeYear(2025) == 739251;
    assert DaysBeforeYear(2026) == 739616;
  }

  /** Corrected: a row's event when its date cell is read in the year of the
      week's first day and, failing that, in the year of its last day. */
  function RowEventAcrossYears(row: Record, weekDates: set<Date>, firstYear: int, lastYear: int, fallback: Fallback): (r: Option<Event>)
    ensures r.Some? ==> r.value.row == row && r.value.date in weekDates && r.value.time != ""
  {
    match RowEvent(row, weekDates, firstYear, fallback)
    case Some(e) => Some(e)
    case None => RowEvent(row, weekDates, lastYear, fallback)
  }

  /** With the correction, a row whose date cell is the `M/D` text of any day of
      the week, and whose time cell is not empty, yields its event. */
  lemma AcrossYearsFindsWeekDay(monday: Date, sunday: Date, d: Date, row: Record, fallback: Fallback)
    requires BuildWeekDates(monday).Some? && d in BuildWeekDates(monday).value
    requires AddDays(monday, 6) == Some(sunday)
    requires DateCellNames(row, d) && Lookup(row, TimeAliases) != ""
    ensures RowEventAcrossYears(row, BuildWeekDates(monday).value, monday.year, sunday.year, fallback)
      == Some(Event(d, Lookup(row, TimeAliases), Lookup(row, ContentAliases), Lookup(row, PersonAliases), row))
  {
    WeekYears(monday, sunday, d);
    DateLabelStripped(d);
    assert DateLabel(d) + [] == DateLabel(d);
    LabelParses(d, [], d.year, fallback);
    if d.year != monday.year {
      NextYearDayDropped(monday, sunday, d, row, fallback);
    }
  }

  /** The correction keeps every event the source finds. */
  lemma AcrossYearsKeeps(row: Record, weekDates: set<Date>, firstYear: int, lastYear: int, fallback: Fallback)
    requires RowEvent(row, weekDates, firstYear, fallback).Some?
    ensures RowEventAcrossYears(row, weekDates, firstYear, lastYear, fallback) == RowEvent(row, weekDates, firstYear, fallback)
  {
  }
}
