/** The message text `format_schedule` (scripts/post_daily.py:122-144) builds
    from the week's events: a header naming the week's first and last days,
    then one line per event, sorted by (date, time), each flagged when its time
    is not the usual slot. */
module Digest {
  import opened Wrappers
  import opened Dates
  import opened Text
  import opened Events
  import opened DateParser
  import opened Records

  /** `weekday_map`: the names of Monday..Sunday, indexed by `date.weekday()`. */
  const WeekdayNames: string := "月火水木金土日"
  /** The time slot the events usually take. */
  const UsualTime: string := "13:00-14:30"
  /** Appended to the line of an event held outside the usual slot. */
  const TimeWarning: string := "\n*※注意! 時間が通常の 13:00-14:30 以外です*"
  /** The body of a week without events. */
  const NoEvents: string := "予定はありません。"

  // ---------------------------------------------------------------------------
  // Sorting by (date, time)

  /** Python's `<` on the key tuples `(ev['date'], ev.get('time') or '')`. */
  predicate KeyBefore(a: Event, b: Event)
    ensures KeyBefore(a, b) ==> !SameKey(a, b)
  {
    Before(a.date, b.date) || (a.date == b.date && StrBefore(a.time, b.time))
  }

  predicate SameKey(a: Event, b: Event) {
    a.date == b.date && a.time == b.time
  }

  /** The key order is a strict total order on keys. */
  lemma KeyOrder(a: Event, b: Event, c: Event)
    ensures !KeyBefore(a, a)
    ensures SameKey(a, b) || KeyBefore(a, b) || KeyBefore(b, a)
    ensures !(KeyBefore(a, b) && KeyBefore(b, a))
    ensures SameKey(a, b) ==> !KeyBefore(a, b)
    ensures KeyBefore(a, b) && KeyBefore(b, c) ==> KeyBefore(a, c)
  {
    StrBeforeIrreflexive(a.time);
    StrBeforeIrreflexive(b.time);
    StrBeforeTotal(a.time, b.time);
    if KeyBefore(a, b) && KeyBefore(b, c) && a.date == b.date && b.date == c.date {
      StrBeforeTransitive(a.time, b.time, c.time);
    }
  }

  /** No event of `s` has a key smaller than an earlier one. */
  predicate Sorted(s: seq<Event>) {
    forall i, j :: 0 <= i < j < |s| ==> !KeyBefore(s[j], s[i])
  }

  /** `x` placed before the first element whose key is greater than its own. */
  function Insert(x: Event, s: seq<Event>): (r: seq<Event>)
    ensures |r| == |s| + 1
  {
    if |s| == 0 then [x]
    else if KeyBefore(x, s[0]) then [x] + s
    else [s[0]] + Insert(x, s[1..])
  }

  /** `sorted(events, key=...)`: each event inserted, in turn, into the sorted
      events before it. */
  function SortEvents(s: seq<Event>): (r: seq<Event>)
    ensures |r| == |s|
  {
    if |s| == 0 then [] else Insert(s[|s| - 1], SortEvents(s[..|s| - 1]))
  }

  /** The events of `s` with the same key as `k`, in the order of `s`. */
  function SameKeyRun(s: seq<Event>, k: Event): seq<Event> {
    if |s| == 0 then []
    else (if SameKey(s[0], k) then [s[0]] else []) + SameKeyRun(s[1..], k)
  }

  lemma {:induction false} InsertMultiset(x: Event, s: seq<Event>)
    ensures multiset(Insert(x, s)) == multiset(s) + multiset{x}
  {
    if |s| > 0 && !KeyBefore(x, s[0]) {
      InsertMultiset(x, s[1..]);
      assert s == [s[0]] + s[1..];
    }
  }

  lemma {:induction false} InsertSorted(x: Event, s: seq<Event>)
    requires Sorted(s)
    ensures Sorted(Insert(x, s))
  {
    if |s| > 0 {
      if KeyBefore(x, s[0]) {
        var r := [x] + s;
        forall i, j | 0 <= i < j < |r|
          ensures !KeyBefore(r[j], r[i])
        {
          if i == 0 {
            KeyOrder(s[j - 1], x, s[0]);
          } else {
            assert r[i] == s[i - 1] && r[j] == s[j - 1];
          }
        }
      } else {
        var r := Insert(x, s[1..]);
        InsertSorted(x, s[1..]);
        InsertMultiset(x, s[1..]);
        forall j | 0 <= j < |r|
          ensures !KeyBefore(r[j], s[0])
        {
          assert r[j] in multiset(r);
          if r[j] != x {
            var m :| 0 <= m < |s[1..]| && s[1..][m] == r[j];
            assert s[m + 1] == r[j];
          }
        }
      }
    }
  }

  /** Whatever order `s` has, the result is sorted by key. */
  lemma {:induction false} SortEventsSorted(s: seq<Event>)
    ensures Sorted(SortEvents(s))
  {
    if |s| > 0 {
      SortEventsSorted(s[..|s| - 1]);
      InsertSorted(s[|s| - 1], SortEvents(s[..|s| - 1]));
    }
  }

  /** The result holds the same events, each as often as `s` does. */
  lemma {:induction false} SortEventsPermutation(s: seq<Event>)
    ensures multiset(SortEvents(s)) == multiset(s)
  {
    if |s| > 0 {
      var init, last := s[..|s| - 1], s[|s| - 1];
      SortEventsPermutation(init);
      InsertMultiset(last, SortEvents(init));
      MultisetSnoc(s);
    }
  }

  lemma MultisetSnoc(s: seq<Event>)
    requires |s| > 0
    ensures multiset(s) == multiset(s[..|s| - 1]) + multiset{s[|s| - 1]}
  {
    assert s == s[..|s| - 1] + [s[|s| - 1]];
  }

  lemma {:induction false} SameKeyRunAppend(a: seq<Event>, b: seq<Event>, k: Event)
    ensures SameKeyRun(a + b, k) == SameKeyRun(a, k) + SameKeyRun(b, k)
  {
    if |a| == 0 {
      assert a + b == b;
    } else {
      var h := if SameKey(a[0], k) then [a[0]] else [];
      SameKeyRunAppend(a[1..], b, k);
      assert (a + b)[0] == a[0];
      assert (a + b)[1..] == a[1..] + b;
      calc {
        SameKeyRun(a + b, k);
        h + SameKeyRun(a[1..] + b, k);
        h + (SameKeyRun(a[1..], k) + SameKeyRun(b, k));
        (h + SameKeyRun(a[1..], k)) + SameKeyRun(b, k);
      }
    }
  }

  lemma {:induction false} SameKeyRunEmpty(s: seq<Event>, k: Event)
    requires forall i :: 0 <= i < |s| ==> !SameKey(s[i], k)
    ensures SameKeyRun(s, k) == []
  {
    if |s| > 0 {
      SameKeyRunEmpty(s[1..], k);
    }
  }

  /** Inserting into a sorted sequence puts `x` after every event with its key. */
  lemma {:induction false} InsertSameKeyRun(x: Event, s: seq<Event>, k: Event)
    requires Sorted(s)
    ensures SameKeyRun(Insert(x, s), k) == SameKeyRun(s, k) + (if SameKey(x, k) then [x] else [])
  {
    if |s| > 0 {
      if KeyBefore(x, s[0]) {
        assert ([x] + s)[1..] == s;
        if SameKey(x, k) {
          forall i | 0 <= i < |s|
            ensures !SameKey(s[i], k)
          {
            KeyOrder(x, s[0], s[i]);
            KeyOrder(s[i], s[0], x);
            KeyOrder(s[i], x, x);
          }
          SameKeyRunEmpty(s, k);
        }
      } else {
        InsertSameKeyRun(x, s[1..], k);
        assert ([s[0]] + Insert(x, s[1..]))[1..] == Insert(x, s[1..]);
      }
    }
  }

  /** The sort is stable: events with equal keys keep their relative order. */
  lemma {:induction false} SortEventsStable(s: seq<Event>, k: Event)
    ensures SameKeyRun(SortEvents(s), k) == SameKeyRun(s, k)
  {
    if |s| > 0 {
      var init, last := s[..|s| - 1], s[|s| - 1];
      var tail := if SameKey(last, k) then [last] else [];
      assert SortEvents(s) == Insert(last, SortEvents(init));
      SortEventsStable(init, k);
      SortEventsSorted(init);
      InsertSameKeyRun(last, SortEvents(init), k);
      assert SameKeyRun([last], k) == tail by {
        assert [last][1..] == [];
      }
      assert s == init + [last];
      SameKeyRunAppend(init, [last], k);
    }
  }

  // ---------------------------------------------------------------------------
  // The text

  /** `weekday_map[d.weekday()]`. */
  function WeekdayName(d: Date): char {
    WeekdayNames[Weekday(d)]
  }

  /** The line of one event: date, weekday and content, then the person and the
      time when they are not empty, then the warning when the time is not the
      usual slot. */
  function EventLine(e: Event): (r: string)
    ensures |DateLabel(e.date)| + 5 + |e.content| <= |r|
  {
    LineHead(e) + PersonPart(e) + TimePart(e) + WarningPart(e)
  }

  function LineHead(e: Event): string {
    DateLabel(e.date) + "(" + [WeekdayName(e.date)] + "): " + e.content
  }

  function PersonPart(e: Event): string {
    if e.person != "" then " - 担当: " + e.person else ""
  }

  function TimePart(e: Event): string {
    if e.time != "" then " - 時間: " + e.time else ""
  }

  function WarningPart(e: Event): string {
    if e.time != UsualTime then TimeWarning else ""
  }

  /** The lines of a sequence of events, one per event, in order. */
  function EventLines(s: seq<Event>): (lines: seq<string>)
    ensures |lines| == |s|
  {
    if |s| == 0 then [] else EventLines(s[..|s| - 1]) + [EventLine(s[|s| - 1])]
  }

  lemma {:induction false} EventLinesAt(s: seq<Event>, k: int)
    requires 0 <= k < |s|
    ensures EventLines(s)[k] == EventLine(s[k])
  {
    if k < |s| - 1 {
      EventLinesAt(s[..|s| - 1], k);
    }
  }

  lemma EventLinesSnoc(s: seq<Event>, i: int)
    requires 0 <= i < |s|
    ensures EventLines(s[..i + 1]) == EventLines(s[..i]) + [EventLine(s[i])]
  {
    assert s[..i + 1][..i] == s[..i];
  }

  /** `今週の予定：{start.month}月{start.day}日 〜 {end.month}月{end.day}日`. */
  function Header(start: Date, end: Date): (r: string)
    ensures |r| > 6 && r[..6] == "今週の予定："
  {
    "今週の予定：" + NatToString(start.month) + "月" + NatToString(start.day) + "日 〜 "
    + NatToString(end.month) + "月" + NatToString(end.day) + "日"
  }

  /** The text `format_schedule(events, monday)` returns, or None where
      `monday + timedelta(days=6)` overflows. */
  function Digest(events: seq<Event>, monday: Date): (r: Option<string>)
    ensures r.None? <==> Ordinal(monday) + 6 > MaxOrdinal
  {
    AddDaysOrdinal(monday, 6);
    match AddDays(monday, 6)
    case None => None
    case Some(end) =>
      if |events| == 0 then Some(Header(monday, end) + "\n" + NoEvents)
      else Some(Join([Header(monday, end)] + EventLines(SortEvents(events)), "\n"))
  }

  /** The body of the loop over the sorted events: the line of one event. */
  method FormatLine(ev: Event) returns (line: string)
    ensures line == EventLine(ev)
  {
    var d := ev.date;
    var md := NatToString(d.month) + "/" + NatToString(d.day);
    var wd := WeekdayNames[Weekday(d)];
    line := md + "(" + [wd] + "): " + ev.content;
    assert line == LineHead(ev);
    if ev.person != "" {
      line := line + (" - 担当: " + ev.person);
    }
    assert line == LineHead(ev) + PersonPart(ev);
    if ev.time != "" {
      line := line + (" - 時間: " + ev.time);
    }
    assert line == LineHead(ev) + PersonPart(ev) + TimePart(ev);
    if ev.time != UsualTime {
      line := line + TimeWarning;
    }
  }

  /** `format_schedule(events, monday_date, week_dates)`; the week's date set is
      not read by the source, so it is not a parameter here. */
  method FormatSchedule(events: seq<Event>, monday: Date) returns (text: Option<string>)
    ensures text == Digest(events, monday)
  {
    var endDay := AddDays(monday, 6);
    if endDay.None? {
      return None;
    }
    var end := endDay.value;
    var header := "今週の予定：" + NatToString(monday.month) + "月" + NatToString(monday.day) + "日 〜 "
      + NatToString(end.month) + "月" + NatToString(end.day) + "日";
    assert header == Header(monday, end);
    if |events| == 0 {
      return Some(header + "\n" + NoEvents);
    }
    var sorted := SortEvents(events);
    var lines := FormatLines(header, sorted);
    text := Some(Join(lines, "\n"));
  }

  lemma AppendLine(header: string, done: seq<string>, line: string)
    ensures [header] + done + [line] == [header] + (done + [line])
  {
  }

  /** `lines = [header]` followed by the loop that appends each event's line. */
  method FormatLines(header: string, sorted: seq<Event>) returns (lines: seq<string>)
    ensures lines == [header] + EventLines(sorted)
  {
    lines := [header];
    for i := 0 to |sorted|
      invariant lines == [header] + EventLines(sorted[..i])
    {
      var line := FormatLine(sorted[i]);
      EventLinesSnoc(sorted, i);
      AppendLine(header, EventLines(sorted[..i]), line);
      lines := lines + [line];
    }
    assert sorted[..|sorted|] == sorted;
  }

  // ---------------------------------------------------------------------------
  // What the text says

  /** The text is the header naming the Monday and the day six days later,
      then either the no-events notice or the lines of the sorted events, one
      per event, joined by newlines. */
  lemma DigestText(events: seq<Event>, monday: Date, end: Date)
    requires Ordinal(end) == Ordinal(monday) + 6
    ensures Digest(events, monday).Some?
    ensures events == [] ==> Digest(events, monday).value == Header(monday, end) + "\n" + NoEvents
    ensures events != [] ==>
      Digest(events, monday).value == Header(monday, end) + "\n" + Join(EventLines(SortEvents(events)), "\n")
    ensures |SortEvents(events)| == |events|
    ensures forall k :: 0 <= k < |events| ==> EventLines(SortEvents(events))[k] == EventLine(SortEvents(events)[k])
  {
    OrdinalRange(end);
    AddDaysOrdinal(monday, 6);
    OrdinalInjective(end, AddDays(monday, 6).value);
    if events != [] {
      JoinCons(Header(monday, end), EventLines(SortEvents(events)), "\n");
    }
    forall k | 0 <= k < |events|
      ensures EventLines(SortEvents(events))[k] == EventLine(SortEvents(events)[k])
    {
      EventLinesAt(SortEvents(events), k);
    }
  }

  lemma {:induction false} JoinCons(h: string, lines: seq<string>, sep: string)
    requires |lines| > 0
    ensures Join([h] + lines, sep) == h + sep + Join(lines, sep)
    decreases |lines|
  {
    if |lines| > 1 {
      var init := lines[..|lines| - 1];
      JoinCons(h, init, sep);
      assert ([h] + lines)[..|[h] + lines| - 1] == [h] + init;
    } else {
      assert ([h] + lines)[..1] == [h];
    }
  }

  predicate EndsWith(s: string, suffix: string) {
    |suffix| <= |s| && s[|s| - |suffix|..] == suffix
  }

  /** A line carries the warning exactly when the event's time is not the usual slot. */
  lemma EventLineWarning(e: Event)
    ensures EndsWith(EventLine(e), TimeWarning) <==> e.time != UsualTime
  {
    var line := EventLine(e);
    if e.time == UsualTime {
      var head := LineHead(e) + PersonPart(e) + " - 時間: ";
      assert line == head + UsualTime;
      assert line[|line| - 1] == '0';
    } else {
      var head := LineHead(e) + PersonPart(e) + TimePart(e);
      assert line == head + TimeWarning;
      assert line[|line| - |TimeWarning|..] == TimeWarning;
    }
  }

  /** Reading a line back with the date parser, in the event's year, gives the
      event's date: the `M/D` label the formatter writes is one the parser reads. */
  lemma EventLineParsesBack(e: Event, fallback: Fallback)
    ensures ParseDateStr(Text(EventLine(e)), e.date.year, fallback) == Some(e.date)
  {
    EventLineSplit(e);
    assert LineTail(e)[0] == '(';
    assert !IsDigit('(');
    LabelParses(e.date, LineTail(e), e.date.year, fallback);
  }

  /** The part of a line after the `M/D` label. */
  function LineTail(e: Event): string {
    "(" + [WeekdayName(e.date)] + "): " + e.content + PersonPart(e) + TimePart(e) + WarningPart(e)
  }

  lemma EventLineSplit(e: Event)
    ensures EventLine(e) == DateLabel(e.date) + LineTail(e)
  {
    var l, c := DateLabel(e.date), "(" + [WeekdayName(e.date)] + "): " + e.content;
    var p, t, w := PersonPart(e), TimePart(e), WarningPart(e);
    assert LineHead(e) == l + c;
    assert LineTail(e) == c + p + t + w;
    Associate(l, c, p + t + w);
    assert EventLine(e) == l + c + p + t + w;
  }

  lemma Associate(a: string, b: string, c: string)
    ensures a + b + c == a + (b + c)
  {
  }

  /** In the week of a Monday, the date `k` days after it is named by the
      `k`-th weekday name. */
  lemma WeekdayNameInWeek(monday: Date, d: Date, k: int)
    requires Weekday(monday) == 0 && 0 <= k < 7 && Ordinal(d) == Ordinal(monday) + k
    ensures WeekdayName(d) == WeekdayNames[k]
  {
    var x := Ordinal(monday) + 6;
    assert x % 7 == 0;
    ResidueStep(x, k);
    assert Weekday(d) == (x + k) % 7;
  }

  lemma ResidueStep(x: int, k: int)
    requires x % 7 == 0 && 0 <= k < 7
    ensures (x + k) % 7 == k
  {
    var q := x / 7;
    assert x + k == 7 * q + k;
  }

  // ---------------------------------------------------------------------------
  // Two texts written out

  /** The Sunday of the week of Monday 2024-07-01 is 2024-07-07. */
  lemma JulyWeek()
    ensures AddDays(YMD(2024, 7, 1), 6) == Some(YMD(2024, 7, 7))
  {
    assert Ordinal(YMD(2024, 7, 7)) == Ordinal(YMD(2024, 7, 1)) + 6;
    OrdinalRange(YMD(2024, 7, 7));
    AddDaysOrdinal(YMD(2024, 7, 1), 6);
    OrdinalInjective(AddDays(YMD(2024, 7, 1), 6).value, YMD(2024, 7, 7));
  }

  lemma JulyHeader()
    ensures Header(YMD(2024, 7, 1), YMD(2024, 7, 7)) == "今週の予定：7月1日 〜 7月7日"
  {
    assert NatToString(7) == "7";
    assert NatToString(1) == "1";
  }

  /** A week without events is the header and the notice. */
  lemma DigestEmptyExample()
    ensures Digest([], YMD(2024, 7, 1)) == Some("今週の予定：7月1日 〜 7月7日\n予定はありません。")
  {
    JulyWeek();
    JulyHeader();
    var h := Header(YMD(2024, 7, 1), YMD(2024, 7, 7));
    assert Digest([], YMD(2024, 7, 1)) == Some(h + "\n" + NoEvents);
    assert h + "\n" + NoEvents == "今週の予定：7月1日 〜 7月7日\n予定はありません。";
  }

  /** 2024-07-03 is a Wednesday. */
  lemma JulyThird()
    ensures WeekdayName(YMD(2024, 7, 3)) == '水'
  {
    assert DaysBeforeYear(2024) == 738885;
    assert Ordinal(YMD(2024, 7, 3)) == 739070;
  }

  /** The line of a talk on 2024-07-03 at 10:00 given by 田中: the time is not
      the usual slot, so the warning follows. */
  lemma JulyLine(e: Event)
    requires e.date == YMD(2024, 7, 3) && e.time == "10:00" && e.content == "輪講" && e.person == "田中"
    ensures EventLine(e) == "7/3(水): 輪講 - 担当: 田中 - 時間: 10:00" + TimeWarning
  {
    JulyHead(e);
    JulyParts(LineHead(e), PersonPart(e), TimePart(e));
  }

  lemma JulyParts(head: string, person: string, time: string)
    requires head == "7/3(水): 輪講" && person == " - 担当: 田中" && time == " - 時間: 10:00"
    ensures head + person + time == "7/3(水): 輪講 - 担当: 田中 - 時間: 10:00"
  {
  }

  lemma JulyHead(e: Event)
    requires e.date == YMD(2024, 7, 3) && e.content == "輪講"
    ensures LineHead(e) == "7/3(水): 輪講"
  {
    JulyThird();
    JulyLabel();
  }

  lemma JulyLabel()
    ensures DateLabel(YMD(2024, 7, 3)) == "7/3"
  {
    assert NatToString(7) == "7";
    assert NatToString(3) == "3";
  }

  /** One event with a person, held outside the usual slot: the header, then
      its line naming the person and the time, then the warning. */
  lemma DigestOneEventExample(row: Record)
    ensures Digest([Event(YMD(2024, 7, 3), "10:00", "輪講", "田中", row)], YMD(2024, 7, 1))
      == Some("今週の予定：7月1日 〜 7月7日\n7/3(水): 輪講 - 担当: 田中 - 時間: 10:00" + TimeWarning)
  {
    var e := Event(YMD(2024, 7, 3), "10:00", "輪講", "田中", row);
    JulyWeek();
    JulyHeader();
    JulyLine(e);
    var h := Header(YMD(2024, 7, 1), YMD(2024, 7, 7));
    DigestOne(e, YMD(2024, 7, 1), YMD(2024, 7, 7));
    var top := "7/3(水): 輪講 - 担当: 田中 - 時間: 10:00";
    assert h + "\n" + EventLine(e) == (h + "\n" + top) + TimeWarning;
    JulyConcat(h, top);
  }

  /** The digest of a single event: the header, a newline, and its line. */
  lemma DigestOne(e: Event, monday: Date, end: Date)
    requires AddDays(monday, 6) == Some(end)
    ensures Digest([e], monday) == Some(Header(monday, end) + "\n" + EventLine(e))
  {
    var h := Header(monday, end);
    assert SortEvents([e]) == [e];
    assert EventLines([e]) == [EventLine(e)];
    assert [h] + [EventLine(e)] == [h, EventLine(e)];
    JoinTwo(h, EventLine(e), "\n");
  }

  lemma JoinTwo(a: string, b: string, sep: string)
    ensures Join([a, b], sep) == a + sep + b
  {
    assert [a, b][..1] == [a];
  }

  lemma JulyConcat(h: string, top: string)
    requires h == "今週の予定：7月1日 〜 7月7日" && top == "7/3(水): 輪講 - 担当: 田中 - 時間: 10:00"
    ensures h + "\n" + top == "今週の予定：7月1日 〜 7月7日\n7/3(水): 輪講 - 担当: 田中 - 時間: 10:00"
  {
  }
}
