# Weekly seminar schedule digest — a Dafny model

`scripts/post_daily.py` posts the week's seminar schedule to Slack each time it runs.
It reads a public Google Sheet whose first row names the columns. This project models and
proves the part of that script that turns today's date and the sheet's cells into the
message text:

- **The week.** `get_monday_date` finds the Monday of today's ISO week, and
  `build_week_dates` builds the set of the seven days from that Monday to the Sunday.
- **The records.** The loop at the end of `load_public_sheet_records` turns the header
  row and each data row into one dictionary per row. A short row gives `''` for the
  missing cells.
- **The date cell.** `parse_date_str` reads a month/day pattern
  (`^\s*(\d{1,2})[/-](\d{1,2})(?:[/-]\d{2,4})?`) in a reference year. When the pattern
  does not match, or the month and day do not make a date, it uses the `dateutil`
  free-text parser.
- **The filter.** `find_week_events` selects the rows whose date falls in the week and
  whose time cell is not empty. Each column is found through a list of alias names, and
  the selected rows keep their row order.
- **The text.** `format_schedule` writes a header naming the first and last day of the
  week, then one line per event, sorted by (date, time). A line is flagged when its
  time is not the usual `13:00-14:30` slot.

The model follows Python's semantics where they matter:

- `datetime.date` is modelled with its year range 1..9999. `date.toordinal`,
  `weekday` and `isoweekday` are modelled, and so is the `OverflowError` raised when
  adding days leaves the calendar (an `Option`).
- The whitespace and decimal-digit classes of `str` patterns are modelled, and so is
  `str.strip`.
- `<` on tuples and on `str` is modelled, and so is `"\n".join`.

The modules are:

- `Wrappers`: `Option`.
- `Dates`: the calendar.
- `Week`: the Monday and the week set.
- `Text`: character classes and string operations.
- `DateParser`: `parse_date_str`.
- `Records`: the header-to-record loop.
- `Events`: `find_week_events`.
- `Digest`: `format_schedule`.

The loops of the source are methods proved against specification functions:

| loop | method | specification function |
|---|---|---|
| record loop | `Records.LoadRecords` | `RecordOf` |
| `min` over the week | `Events.MinDate` | `IsMinimum` |
| event filter | `Events.FindWeekEvents` | `WeekEvents` |
| line builder | `Digest.FormatLine` | `EventLine` |
| line list | `Digest.FormatLines` | `EventLines` |
| schedule builder | `Digest.FormatSchedule` | `Digest` |

The properties the script relies on are proved as lemmas about those functions.

## Model

| member | source | states |
|---|---|---|
| Dates.DaysInMonth | scripts/post_daily.py:85 | a month has 28 to 31 days, and 29 exactly for February of a leap year |
| Dates.Weekday | scripts/post_daily.py:135 | `date.weekday()` is in 0..6 |
| Dates.IsoWeekday | scripts/post_daily.py:20 | `date.isoweekday()` is in 1..7 and is one more than `weekday()` |
| Dates.AddDays | scripts/post_daily.py:21-25 | `d + timedelta(days=n)`, also used at line 125: a forward step gives a later date and a backward step an earlier one; `Dates.AddDaysOrdinal` pins the result to the ordinal |
| Dates.Before | scripts/post_daily.py:97 | the (year, month, day) order `min` uses; no date is before itself, and `Dates.OrdinalMonotone` makes it the ordinal order |
| Dates.YearStep | scripts/post_daily.py:21 | the days before year y+1 are those before y plus the length of y |
| Dates.YearsGrow | scripts/post_daily.py:21 | the days before year b are at least those before a plus 365 per year |
| Dates.WithinYear | scripts/post_daily.py:21 | the day of the year is between 1 and the year's length, and equal to the length exactly on 31 December |
| Dates.MaxOrdinalValue | scripts/post_daily.py:25 | 9999-12-31 has ordinal 3652059 |
| Dates.OrdinalRange | scripts/post_daily.py:21 | every ordinal is in 1..3652059; only 0001-01-01 has ordinal 1 and only 9999-12-31 the largest |
| Dates.NextDayOrdinal | scripts/post_daily.py:25 | the next day fails exactly on 9999-12-31 and otherwise has the next ordinal |
| Dates.PrevDayOrdinal | scripts/post_daily.py:21 | the previous day fails exactly on 0001-01-01 and otherwise has the previous ordinal |
| Dates.MonthStep | scripts/post_daily.py:21 | the days before month m+1 are those before m plus the length of m |
| Dates.AddDaysOrdinal | scripts/post_daily.py:21 | `d + timedelta(days=n)` succeeds exactly when the ordinal plus n stays in 1..3652059, and then has that ordinal |
| Dates.AddDaysForward | scripts/post_daily.py:25 | the same for n >= 0, by induction on n |
| Dates.AddDaysBackward | scripts/post_daily.py:21 | the same for n <= 0, by induction on -n |
| Dates.OrdinalMonotone | scripts/post_daily.py:97 | date order (year, month, day) is ordinal order, in both directions |
| Dates.MonthsGrow | scripts/post_daily.py:97 | an earlier month ends before a later month starts |
| Dates.OrdinalInjective | scripts/post_daily.py:109 | two dates with the same ordinal are equal |
| Dates.AddDaysWeekday | scripts/post_daily.py:135 | adding n days adds n to the weekday, modulo 7 |
| Week.GetMondayDate | scripts/post_daily.py:17-22 | the Monday is today minus (isoweekday - 1) days, as ordinals |
| Week.MondayStep | scripts/post_daily.py:20-21 | stepping back `isoweekday() - 1` days never overflows, and lands that many ordinals earlier |
| Week.MondayWeekday | scripts/post_daily.py:21 | a date with that ordinal is a Monday |
| Week.MondayOrdinal | scripts/post_daily.py:20-21 | the Monday's ordinal is today's minus `weekday()`, the same offset as `isoweekday() - 1` |
| Week.MondayIsMonday | scripts/post_daily.py:17-22 | the result is a Monday |
| Week.MondayRange | scripts/post_daily.py:17-22 | the result is 0 to 6 days before today |
| Week.MondayOfWeek | scripts/post_daily.py:17-22 | the result is a Monday, on or before today, at most 6 days before it |
| Week.MondayIsUnique | scripts/post_daily.py:17-22 | any Monday on or at most 6 days before today is the result |
| Week.BuildWeekDates | scripts/post_daily.py:24-25 | the week set fails (OverflowError) exactly when Sunday would pass 9999-12-31 |
| Week.WeekDaysExist | scripts/post_daily.py:25 | all seven additions succeed exactly when the sixth does |
| Week.WeekDatesExactly | scripts/post_daily.py:24-25 | a date is in the week set exactly when its ordinal is within 0..6 of the Monday's |
| Week.FirstDaysCount | scripts/post_daily.py:25 | the first k days of the week are k distinct dates |
| Week.FirstDaysStep | scripts/post_daily.py:25 | each added day is new to the set |
| Week.WeekHasSevenDays | scripts/post_daily.py:24-25 | the week set has seven dates, and the Monday is its minimum |
| Week.TodayInItsWeek | scripts/post_daily.py:165-166 | today is in the week built from its own Monday |
| Text.DigitValue | scripts/post_daily.py:78 | a character's decimal value is 0..9, or -1 for a non-digit |
| Text.DigitsValue | scripts/post_daily.py:83-84 | `int()` of a digit string is non-negative |
| Text.DigitIsNotSpace | scripts/post_daily.py:78 | no decimal digit is whitespace |
| Text.AllSpacesConcat | scripts/post_daily.py:106 | a concatenation is all whitespace exactly when both parts are |
| Text.LeadingSpaces | scripts/post_daily.py:78 | the leading run is all whitespace and stops at a non-whitespace character |
| Text.TrailingSpaces | scripts/post_daily.py:106 | the trailing run is all whitespace and stops at a non-whitespace character |
| Text.Strip | scripts/post_daily.py:106 | `strip()` is no longer than its input and, when non-empty, starts and ends with non-whitespace |
| Text.StripSlice | scripts/post_daily.py:106 | `strip()` returns a slice with only whitespace before and after it |
| Text.StripEmpty | scripts/post_daily.py:104-106 | `strip()` gives the empty string exactly for all-whitespace input |
| Text.StripUnchanged | scripts/post_daily.py:106 | a string with no whitespace at either end is its own strip |
| Text.NatToString | scripts/post_daily.py:127 | `f"{n}"` is a non-empty string of ASCII digits |
| Text.NatToStringValue | scripts/post_daily.py:134 | `int(f"{n}") == n` |
| Text.NatToStringLength | scripts/post_daily.py:134 | numbers below 10 have one digit and numbers below 100 have two |
| Text.StrBeforeIrreflexive | scripts/post_daily.py:130 | no string sorts before itself |
| Text.StrBeforeTotal | scripts/post_daily.py:130 | any two strings are equal or ordered one way, never both ways |
| Text.StrBeforeTransitive | scripts/post_daily.py:130 | the string order is transitive |
| Text.StrBefore | scripts/post_daily.py:130 | `<` on `str` (code point order, a proper prefix first); it never holds between equal strings |
| Text.Join | scripts/post_daily.py:144 | `"\n".join(lines)` starts with the first line; `Digest.JoinCons` and `Digest.JoinTwo` give the rest |
| DateParser.ParseDateStr | scripts/post_daily.py:73-75 | a non-str or empty cell gives None |
| DateParser.MatchMonthDay | scripts/post_daily.py:78 | a match starts, after the leading whitespace, with a digit, and gives non-negative numbers; `MatchesForm` and `MatchOnlyForm` characterise the matches both ways |
| DateParser.FallbackParse | scripts/post_daily.py:89-93 | for a reference year in 1..9999 the answer is the fallback's; otherwise `datetime(reference_year, 1, 1)` raises and the answer is None |
| DateParser.SeparatorNotDigit | scripts/post_daily.py:78 | `/` and `-` are not digits |
| DateParser.MatchesForm | scripts/post_daily.py:78 | a string of the form whitespace, 1-2 digits, separator, 1-2 digits, then anything not continuing a one-digit day, matches with those two numbers |
| DateParser.GroupsOfForm | scripts/post_daily.py:78 | the same after the leading whitespace |
| DateParser.LeadingSpacesOf | scripts/post_daily.py:78 | the whitespace prefix is exactly the leading run |
| DateParser.MatchOnlyForm | scripts/post_daily.py:78-84 | every match has that form, and its groups' values are the numbers returned |
| DateParser.MatchGroupsSome | scripts/post_daily.py:78 | a match starts with a digit, has a separator after the first group and a digit after it |
| DateParser.MatchedDigits | scripts/post_daily.py:78 | both groups are 1-2 digits, and a one-digit second group is not followed by a digit |
| DateParser.MatchBounds | scripts/post_daily.py:83-84 | the month and day read are at most 99 |
| DateParser.GroupsBound | scripts/post_daily.py:78-84 | after the leading whitespace, the two groups read are at most 99 |
| DateParser.TwoDigitsBound | scripts/post_daily.py:83-84 | a 1-2 digit string's value is at most 99 |
| DateParser.ParseMonthDay | scripts/post_daily.py:78-85 | a matching cell whose numbers make a date in the reference year gives that date, without the fallback |
| DateParser.ParseInvalidMonthDay | scripts/post_daily.py:82-93 | a matching cell whose numbers make no date is handed to the fallback |
| DateParser.NoMatchFallback | scripts/post_daily.py:78-93 | a non-empty text cell the pattern does not match is handed to the fallback |
| DateParser.NoFormFallback | scripts/post_daily.py:78-93 | a non-empty text with no split of the matched form (whitespace, 1-2 digits, separator, 1-2 digits, rest) is handed to the fallback |
| DateParser.ParseOutcome | scripts/post_daily.py:73-93 | every date returned is the matched month/day in the reference year, or the fallback's answer for a valid reference year |
| DateParser.LabelParses | scripts/post_daily.py:78-85 | a date's `M/D` text, followed by anything not starting with a digit, parses back to that month and day |
| DateParser.DateLabel | scripts/post_daily.py:134 | `f"{d.month}/{d.day}"` has at least three characters; `LabelParses` proves it reads back as the date |
| DateParser.LabelShape | scripts/post_daily.py:134 | a date's `M/D` text has the matched form, with the month and the day as its groups |
| DateParser.ShortNumber | scripts/post_daily.py:134 | a number below 100 prints as 1-2 digits that read back as it |
| DateParser.SlashForm | scripts/post_daily.py:78 | `a/b` with 1-2 digit groups has the matched form |
| DateParser.ParseExampleSlash | scripts/post_daily.py:78-85 | "7/4" in 2024 is 2024-07-04 |
| DateParser.ParseExampleDash | scripts/post_daily.py:78-85 | "07-04" in 2024 is 2024-07-04 |
| DateParser.ParseExampleYearIgnored | scripts/post_daily.py:78-85 | "7/4/23" in 2024 is 2024-07-04: a year in the cell is ignored |
| DateParser.ParseExampleFallThrough | scripts/post_daily.py:82-93 | "13/45" matches but is no date, so the fallback decides |
| DateParser.OneDigit | scripts/post_daily.py:83 | a one-character ASCII digit string reads as its digit |
| DateParser.TwoDigits | scripts/post_daily.py:83 | a two-character ASCII digit string reads as its number |
| Records.LoadRecords | scripts/post_daily.py:58-71 | no sheet gives no records; otherwise one record per data row, in order, each built from the header row |
| Records.RecordOf | scripts/post_daily.py:65-68 | a record has no key that is not a header name; `RecordKeys` and `RecordValue` give its keys and values |
| Records.RecordKeys | scripts/post_daily.py:65-68 | a record's keys are exactly the header names |
| Records.RecordValue | scripts/post_daily.py:66-68 | a header name holds the cell of its last column, or `''` past the row's end |
| Records.RecordOfDistinct | scripts/post_daily.py:66-68 | with distinct headers, every column's cell is under its name, and a short row gives `''` |
| Events.Lookup | scripts/post_daily.py:100-103 | the field is empty exactly when no alias has a non-empty cell; otherwise it is the cell of the first alias that has one |
| Events.RowEvent | scripts/post_daily.py:99-118 | an event keeps the row it came from, its date is in the week and its time is not empty |
| Events.MinDate | scripts/post_daily.py:97 | the result is the earliest date of the set |
| Events.MinimumUnique | scripts/post_daily.py:97 | a set has at most one earliest date |
| Events.FindWeekEvents | scripts/post_daily.py:95-120 | the week has an earliest date, and the events are those of the records in order, read in that date's year |
| Events.WeekEvents | scripts/post_daily.py:99-120 | there are at most as many events as records; `WeekEventsAdmitted` says which |
| Events.WeekEventsAppend | scripts/post_daily.py:99-120 | the events of two record lists laid end to end are the events of each, in order |
| Events.WeekEventsSingle | scripts/post_daily.py:99-118 | one record gives its event or nothing |
| Events.RowEventAdmits | scripts/post_daily.py:100-118 | a row gives an event exactly when its date cell is non-empty, parses after stripping to a week date, and its time cell is non-empty; the fields are the looked-up cells |
| Events.WeekEventsMembership | scripts/post_daily.py:99-120 | an event is in the result exactly when its row is a record that gives it |
| Events.WeekEventsAdmitted | scripts/post_daily.py:99-120 | an event is in the result exactly when its row is a record and the row admits it |
| Events.WeekEventsLastMember | scripts/post_daily.py:99-120 | membership splits at the last record |
| Events.WeekEventsInWeek | scripts/post_daily.py:109-111 | every event is in the week and has a non-empty time |
| Events.WeekMinimum | scripts/post_daily.py:97 | the earliest date of a built week is its Monday |
| Events.YearGap | scripts/post_daily.py:98 | dates two calendar years apart are at least 365 days apart |
| Events.WeekYears | scripts/post_daily.py:98 | the Sunday, and every date of the week, is in the Monday's year or the next one |
| Events.NewYearWeek | scripts/post_daily.py:98 | a week date in the next year is in the first days of January, and the same day in the Monday's year lies before the Monday |
| Events.DateLabelStripped | scripts/post_daily.py:106 | a date's `M/D` text is not empty and is its own strip |
| Events.NextYearDayDropped | scripts/post_daily.py:98-109 | a row naming a week date of the other year by its `M/D` text gives no event |
| Events.NewYearExample | scripts/post_daily.py:98-109 | in the week of Monday 2025-12-29, a row with date cell "1/2" gives no event, although 2026-01-02 is in the week |
| Events.NewYearWeekFacts | scripts/post_daily.py:24-25 | 2025-12-29 is a Monday and its week contains 2026-01-02 |
| Events.NewYearLabel | scripts/post_daily.py:134 | the `M/D` text of 2026-01-02 is "1/2" |
| Events.NewYearOrdinals | scripts/post_daily.py:25 | 2025-12-29 and 2026-01-02 are ordinals 739614 and 739618 |
| Events.RowEventAcrossYears | scripts/post_daily.py:98-118 | the corrected reading gives only events of the row, dated in the week, with a non-empty time |
| Events.AcrossYearsFindsWeekDay | scripts/post_daily.py:98-118 | with the correction, a row naming any day of the week by its `M/D` text, with a time, gives that day's event |
| Events.AcrossYearsKeeps | scripts/post_daily.py:98-118 | the correction keeps every event the source finds |
| Digest.KeyOrder | scripts/post_daily.py:130 | the (date, time) key order is a strict total order modulo equal keys |
| Digest.KeyBefore | scripts/post_daily.py:130 | the `(date, time or '')` key comparison; events with equal keys are never ordered |
| Digest.Insert | scripts/post_daily.py:130 | inserting adds one event |
| Digest.InsertMultiset | scripts/post_daily.py:130 | insertion adds exactly the one event |
| Digest.InsertSorted | scripts/post_daily.py:130 | insertion keeps a sorted list sorted |
| Digest.SortEventsSorted | scripts/post_daily.py:130 | `sorted` gives a list ordered by key |
| Digest.SortEvents | scripts/post_daily.py:130 | `sorted` keeps the number of events; `SortEventsSorted`, `SortEventsPermutation` and `SortEventsStable` pin the order |
| Digest.SortEventsPermutation | scripts/post_daily.py:130 | `sorted` gives a permutation of its input |
| Digest.SameKeyRunAppend | scripts/post_daily.py:130 | the events with one key in a concatenation are those of each part, in order |
| Digest.SameKeyRunEmpty | scripts/post_daily.py:130 | a list without that key has no events with it |
| Digest.InsertSameKeyRun | scripts/post_daily.py:130 | insertion puts an event after the ones with the same key |
| Digest.SortEventsStable | scripts/post_daily.py:130 | `sorted` is stable: events with equal keys keep their input order |
| Digest.EventLines | scripts/post_daily.py:131-143 | one line per event |
| Digest.EventLinesAt | scripts/post_daily.py:132-143 | line k is the line of event k |
| Digest.EventLinesSnoc | scripts/post_daily.py:143 | appending an event appends its line |
| Digest.FormatLine | scripts/post_daily.py:133-142 | the loop body builds the event's line |
| Digest.EventLine | scripts/post_daily.py:133-142 | a line holds at least the `M/D` text, the weekday, the separators and the content; `EventLineSplit`, `EventLineWarning` and `EventLineParsesBack` give its parts |
| Digest.FormatLines | scripts/post_daily.py:131-143 | the loop builds the header followed by the line of each sorted event |
| Digest.FormatSchedule | scripts/post_daily.py:122-144 | the method returns the specified text, or None when the week's end overflows |
| Digest.Header | scripts/post_daily.py:127 | the header starts with "今週の予定：" |
| Digest.Digest | scripts/post_daily.py:124-144 | the text exists exactly when the week's Sunday is in the calendar; `DigestText` gives its lines |
| Digest.DigestText | scripts/post_daily.py:124-144 | no events give the header and "予定はありません。"; otherwise the header and the lines of the sorted events, joined by newlines, one line per event |
| Digest.JoinCons | scripts/post_daily.py:144 | joining with a head line puts the separator after it |
| Digest.EventLineWarning | scripts/post_daily.py:141-142 | a line ends with the warning exactly when the event's time is not 13:00-14:30 |
| Digest.EventLineParsesBack | scripts/post_daily.py:134-136 | a line read by the date parser in the event's year gives back the event's date |
| Digest.EventLineSplit | scripts/post_daily.py:134-136 | a line starts with the event's `M/D` text |
| Digest.WeekdayNameInWeek | scripts/post_daily.py:123-135 | the k-th day of a week starting on Monday gets the k-th name 月..日 |
| Digest.DigestOne | scripts/post_daily.py:130-144 | a single event gives the header, a newline and its line |
| Digest.JulyWeek | scripts/post_daily.py:125 | the week of Monday 2024-07-01 ends on 2024-07-07 |
| Digest.JulyHeader | scripts/post_daily.py:127 | that week's header is "今週の予定：7月1日 〜 7月7日" |
| Digest.DigestEmptyExample | scripts/post_daily.py:124-129 | no events in that week give the header and "予定はありません。" |
| Digest.JulyThird | scripts/post_daily.py:135 | 2024-07-03 is named 水 |
| Digest.JulyLine | scripts/post_daily.py:133-142 | the 10:00 seminar 輪講 of 2024-07-03 led by 田中 has the line "7/3(水): 輪講 - 担当: 田中 - 時間: 10:00" followed by the warning |
| Digest.DigestOneEventExample | scripts/post_daily.py:130-144 | with that single event, the text is the header, a newline, that line and the warning |

### Proof helpers

These lemmas carry steps of the proofs above and state nothing about the script of their own:

- `Dates.Divisors`: a multiple of 400 is a multiple of 100, and a multiple of 100 is a multiple of 4.
- `Dates.MultipleOf`: a multiple of 400 is a multiple of 100, and a multiple of 100 is a multiple of 4, one pair at a time.
- `Dates.DivStep`: going from y-1 to y adds one to y/k exactly when k divides y, for the leap-year divisors 4, 100 and 400.
- `Dates.ModShift`: (x + n) mod 7 equals (x mod 7 + n) mod 7.
- `Dates.IsoResidue`: the ISO weekday formula from the ordinal agrees with weekday()+1.
- `Week.MondayOffset`: subtracting the weekday offset stays within the calendar and lands on a Monday residue.
- `Week.SameWeekResidue`: two Monday ordinals within 6 days of the same day are equal.
- `Text.SpacesSuffix`: a whitespace suffix grows by a final whitespace character.
- `Week.MondayAtMost`: a date whose ordinal is not above another's is not after it.
- `DateParser.FormWitness`: one instance of the form witnesses the existential.
- `DateParser.PrefixSplit`: the whitespace prefix and the groups concatenate back to the input.
- `DateParser.SplitGroups`: a string splits at the group boundaries.
- `Text.StripWitness`: a slice bounded by whitespace witnesses that `strip()` returns a slice.
- `Events.InSnoc`: membership of a sequence splits at its last element.
- `Digest.MultisetSnoc`: the multiset of a list splits at its last element.
- `Digest.ResidueStep`: k days after a multiple of 7 the residue is k.
- `Digest.AppendLine`: appending to a list behind a head line is associative.
- `Digest.Associate`: string concatenation is associative.
- `Digest.JoinTwo`: joining two strings puts the separator between them.
- `Digest.JulyParts`: the parts of the example line concatenate to its text.
- `Digest.JulyConcat`: the example header and line concatenate to the example text.
- `Digest.JulyHead`: the example line starts with "7/3(水): 輪講".
- `Digest.JulyLabel`: the `M/D` text of 2024-07-03 is "7/3".

### Definitions

These definitions carry no contract of their own. Each models the source lines named, and
the rows above state what is proved about it.

- `Dates.Date`, `Dates.MinYear`, `Dates.MaxYear`, `Dates.FirstDate`, `Dates.LastDate`: `datetime.date`, with its range 0001-01-01..9999-12-31 (scripts/post_daily.py:21-25).
- `Dates.IsLeap`, `Dates.DaysInYear`, `Dates.DaysInMonth`: the Gregorian calendar that `datetime.date` checks at scripts/post_daily.py:85.
- `Dates.IsValid`: the arguments `datetime.date(reference_year, month, day)` accepts without raising ValueError (scripts/post_daily.py:85). The other arguments fall through to the fallback.
- `Dates.DaysBeforeYear`, `Dates.DaysBeforeMonth`, `Dates.Ordinal`, `Dates.MaxOrdinal`: `date.toordinal()`, which the weekday (scripts/post_daily.py:20, scripts/post_daily.py:135) and date arithmetic (scripts/post_daily.py:21, scripts/post_daily.py:25, scripts/post_daily.py:125) rest on.
- `Dates.NextDay`, `Dates.PrevDay`: one step of `date ± timedelta(days=1)`, with the OverflowError at either end of the calendar (scripts/post_daily.py:21, scripts/post_daily.py:25, scripts/post_daily.py:125).
- `Dates.AtMost`, `Dates.IsMinimum`: `<=` on dates and the element `min(week_dates)` returns (scripts/post_daily.py:97).
- `Week.FirstDays`: the first k elements of the set comprehension of scripts/post_daily.py:25.
- `Text.IsSpace`: Python's whitespace, the `\s` of scripts/post_daily.py:78 and what `str.strip()` removes at scripts/post_daily.py:106.
- `Text.InRun`, `Text.IsDigit`: the Unicode decimal digits, the `\d` of scripts/post_daily.py:78 and what `int()` reads at scripts/post_daily.py:83-84.
- `Text.AllSpaces`, `Text.AllDigits`: a string made only of such characters.
- `DateParser.Cell`: the `date_str` argument, a `str` or another object (scripts/post_daily.py:73-74).
- `DateParser.Fallback`: `dateutil.parser.parse` with its default date, as a parameter (scripts/post_daily.py:89-93).
- `DateParser.IsSeparator`: the class `[/-]` of scripts/post_daily.py:78.
- `DateParser.MatchGroups`: the pattern after `^\s*` (scripts/post_daily.py:78): a digit, the greedy month group, a separator, a digit and the greedy day group. The optional year segment never changes the groups.
- `DateParser.GroupLength`: greedy `\d{1,2}`. It takes two digits when two follow and one otherwise. Backtracking to one digit never yields a match: when two digits follow, the character after the first is a digit, not a separator.
- `DateParser.MonthDayForm`: the reference shape of the strings the pattern matches, split as the pattern splits them (scripts/post_daily.py:78). `MatchesForm` and `MatchOnlyForm` tie it to `MatchMonthDay` in both directions.
- `Records.Record`: the dictionary built per row (scripts/post_daily.py:65).
- `Records.CellAt`: `row[i] if i < len(row) else ''` (scripts/post_daily.py:68).
- `Events.DateAliases`, `Events.TimeAliases`, `Events.ContentAliases`, `Events.PersonAliases`: the column names tried in order at scripts/post_daily.py:100-103.
- `Events.Event`: the dictionary appended at scripts/post_daily.py:112-118.
- `Events.Admits`: the reference condition for a row to give an event (scripts/post_daily.py:100-118). The date cell is non-empty and, once stripped, parses to a date of the week; the time cell is non-empty; the fields are the looked-up cells. `RowEventAdmits` and `WeekEventsAdmitted` tie it to the loop.
- `Events.DateCellNames`: a row whose date cell is a date's `M/D` text, as used by the finding below.
- `Digest.SameKey`, `Digest.Sorted`: equal sort keys, and a list ordered by the key of scripts/post_daily.py:130. `SortEventsSorted` proves `sorted` gives such a list.
- `Digest.SameKeyRun`: the events with one key, in list order. This is the reference for the stability of `sorted` at scripts/post_daily.py:130, which `SortEventsStable` proves.
- `Digest.WeekdayNames`, `Digest.WeekdayName`: `weekday_map[d.weekday()]` (scripts/post_daily.py:123, scripts/post_daily.py:135).
- `Digest.UsualTime`, `Digest.TimeWarning`, `Digest.NoEvents`: the literals of scripts/post_daily.py:141-142 and scripts/post_daily.py:129.
- `Digest.LineHead`, `Digest.PersonPart`, `Digest.TimePart`, `Digest.WarningPart`: the four pieces of the line at scripts/post_daily.py:136, scripts/post_daily.py:137-138, scripts/post_daily.py:139-140 and scripts/post_daily.py:141-142.
- `Digest.LineTail`, `Digest.EndsWith`: the line after its `M/D` text, and a suffix test, used to state `EventLineSplit` and `EventLineWarning`.
- `Wrappers.Option`: a result that may be missing, for the raised exceptions the source catches or lets through.

## Findings

| source | as written | input that shows it | evidently intended | confidence | as-written member | corrected member |
|---|---|---|---|---|---|---|
| scripts/post_daily.py:98 | every date cell is read in the year of the Monday (`reference_year = monday.year`), so in a week across New Year a cell naming a day of the other year parses to a date outside the week, and the event is dropped | the week of Monday 2025-12-29; a row whose date cell is "1/2" and whose time cell is not empty: the cell parses to 2025-01-02, and 2026-01-02 is not found | the row yields the event of 2026-01-02, which is in the week | medium, not executed | Events.NextYearDayDropped, Events.NewYearExample | Events.RowEventAcrossYears, Events.AcrossYearsFindsWeekDay |

The correction `Events.RowEventAcrossYears` reads the cell in the Monday's year first, and
then in the Sunday's year. `Events.AcrossYearsKeeps` proves that it keeps every event the
source finds. `Events.AcrossYearsFindsWeekDay` proves that it finds every day of the week.
`Events.FindWeekEvents` and `Events.WeekEvents` still model the code as written: they are
what the script does. The corrected reading is defined and proved beside them.

## Left out

- `get_today_jst` (scripts/post_daily.py:12-15) reads the clock in the Asia/Tokyo time
  zone. In the model, `today` is a parameter of `Week.GetMondayDate`. Time zones and the
  time of day are not modelled.
- `Week.GetMondayDate` takes a `date`. The source subtracts from a timezone-aware
  `datetime` and then takes `.date()`, which gives the same day.
- The Sheets API calls of `load_public_sheet_records` (scripts/post_daily.py:33-57) are
  left out: the environment variables, the metadata request and the values request,
  with their `RuntimeError`s. The model starts from the `values` list.
- `dateutil.parser.parse` is foreign code. It is the parameter `fallback` of
  `DateParser.ParseDateStr`, and every such function is allowed, so nothing is assumed
  about what it returns. The fallback is consulted only for a reference year in 1..9999,
  because `datetime(reference_year, 1, 1)` raises otherwise, and that is caught.
- `post_to_slack` and `main` (scripts/post_daily.py:146-181) do network I/O and wiring.
  The `print` calls (scripts/post_daily.py:110, scripts/post_daily.py:119) are console
  output. Both are left out.
- `Events.FindWeekEvents` requires a non-empty week set, because `min` of an empty set
  raises `ValueError`, which the source does not catch. `main` always passes the seven
  days of a week.
- `Events.FindWeekEvents` takes records whose cells are strings.
  1. The `str(...)` call (scripts/post_daily.py:106) is therefore the identity.
  2. The non-`str` branch of `parse_date_str` is modelled by `DateParser.Cell.NotText`,
     and `find_week_events` never takes it.
- The Unicode tables are fixed at Unicode 15.0, the version of Python 3.12. This covers
  the `\s` and `\d` classes of Python's `re`, `str.isspace` and `str.strip`, and the
  decimal values `int()` accepts.
- The source's comment at scripts/post_daily.py:67 expects distinct header names.
  `Records.RecordOf` models the overwrite a duplicate name causes, and
  `Records.RecordOfDistinct` states the expected case.
- `Digest.FormatSchedule` has no `week_dates` parameter, because `format_schedule`
  never reads it.
- `Digest.FormatSchedule` returns `None` where `monday_date + timedelta(days=6)` raises
  `OverflowError`.
- `Digest.SortEvents` is an insertion sort. It is proved sorted, a permutation of its
  input and stable, which determines the result uniquely, as Python's `sorted` does.
  Timsort's own steps are not modelled.
- `parse_date_str` on a whitespace-only string goes to the fallback, because `^\s*`
  matches but no digit follows. Only the empty string gives `None` at once. This is what
  the code does (scripts/post_daily.py:74-78), and the model follows it.
  `find_week_events` strips the cell first, so a whitespace-only cell becomes empty and
  is skipped. `Text.StripEmpty` states this.
- The script has no event-type classification, no absence column and no bulleted
  layout; the model has none either.
