/** The week window: the Monday of the current ISO week and the seven dates
    Monday..Sunday (scripts/post_daily.py `get_monday_date`, `build_week_dates`). */
module Week {
  import opened Wrappers
  import opened Dates

  /** `get_monday_date(today)`: step back `isoweekday() - 1` days. The step
      never leaves the calendar, since 0001-01-01 is itself a Monday. */
  function GetMondayDate(today: Date): (monday: Date)
    ensures Ordinal(monday) == Ordinal(today) - (IsoWeekday(today) - 1)
  {
    MondayStep(today, IsoWeekday(today) - 1);
    AddDays(today, -(IsoWeekday(today) - 1)).value
  }

  /** Stepping back the weekday offset stays in the calendar. */
  lemma MondayStep(today: Date, delta: int)
    requires delta == IsoWeekday(today) - 1
    ensures AddDays(today, -delta).Some?
    ensures Ordinal(AddDays(today, -delta).value) == Ordinal(today) - delta
  {
    OrdinalRange(today);
    MondayOffset(Ordinal(today));
    AddDaysOrdinal(today, -delta);
  }

  lemma MondayOffset(o: int)
    requires o >= 1
    ensures (o + 6) % 7 <= o - 1
    ensures (o - (o + 6) % 7 + 6) % 7 == 0
  {
    if o >= 7 {
    } else {
      assert (o + 6) % 7 == o - 1;
    }
  }

  /** The result is a Monday, 0 to 6 days before `today`, and not after it. */
  lemma MondayOfWeek(today: Date)
    ensures Weekday(GetMondayDate(today)) == 0
    ensures Ordinal(GetMondayDate(today)) <= Ordinal(today) <= Ordinal(GetMondayDate(today)) + 6
    ensures AtMost(GetMondayDate(today), today)
  {
    MondayIsMonday(today);
    MondayRange(today);
    MondayAtMost(GetMondayDate(today), today);
  }

  lemma MondayIsMonday(today: Date)
    ensures Weekday(GetMondayDate(today)) == 0
  {
    var o := Ordinal(today);
    OrdinalRange(today);
    MondayOrdinal(today);
    MondayOffset(o);
    MondayWeekday(GetMondayDate(today), o);
  }

  lemma MondayRange(today: Date)
    ensures Ordinal(GetMondayDate(today)) <= Ordinal(today) <= Ordinal(GetMondayDate(today)) + 6
  {
    MondayOrdinal(today);
  }

  lemma MondayOrdinal(today: Date)
    ensures Ordinal(GetMondayDate(today)) == Ordinal(today) - (Ordinal(today) + 6) % 7
  {
    var o, w := Ordinal(today), Weekday(today);
    assert w == (o + 6) % 7;
    assert IsoWeekday(today) - 1 == w;
    assert Ordinal(GetMondayDate(today)) == o - w;
  }

  lemma MondayAtMost(monday: Date, today: Date)
    requires Ordinal(monday) <= Ordinal(today)
    ensures AtMost(monday, today)
  {
    OrdinalMonotone(monday, today);
    OrdinalInjective(monday, today);
  }

  lemma MondayWeekday(monday: Date, o: int)
    requires Ordinal(monday) == o - (o + 6) % 7
    requires (o - (o + 6) % 7 + 6) % 7 == 0
    ensures Weekday(monday) == 0
  {
  }

  /** No other Monday lies 0 to 6 days before `today`: the result is the Monday of today's week. */
  lemma MondayIsUnique(today: Date, m: Date)
    requires Weekday(m) == 0 && Ordinal(m) <= Ordinal(today) <= Ordinal(m) + 6
    ensures m == GetMondayDate(today)
  {
    var monday := GetMondayDate(today);
    MondayOfWeek(today);
    var a, b := Ordinal(m), Ordinal(monday);
    assert (a + 6) % 7 == Weekday(m) && (b + 6) % 7 == Weekday(monday);
    SameWeekResidue(a, b, Ordinal(today));
    OrdinalInjective(m, monday);
  }

  lemma SameWeekResidue(a: int, b: int, t: int)
    requires (a + 6) % 7 == 0 && (b + 6) % 7 == 0
    requires a <= t <= a + 6 && b <= t <= b + 6
    ensures a == b
  {
    var qa, qb := (a + 6) / 7, (b + 6) / 7;
    assert a + 6 == 7 * qa && b + 6 == 7 * qb;
  }

  /** `build_week_dates(monday)`: `{monday + timedelta(days=i) for i in range(7)}`,
      or None where one of those additions overflows past 9999-12-31. */
  function BuildWeekDates(monday: Date): (week: Option<set<Date>>)
    ensures week.None? <==> Ordinal(monday) + 6 > MaxOrdinal
  {
    WeekDaysExist(monday);
    if forall i | 0 <= i < 7 :: AddDays(monday, i).Some? then
      Some(set i | 0 <= i < 7 :: AddDays(monday, i).value)
    else
      None
  }

  lemma WeekDaysExist(monday: Date)
    ensures Ordinal(monday) + 6 <= MaxOrdinal ==> forall i | 0 <= i < 7 :: AddDays(monday, i).Some?
    ensures AddDays(monday, 6).Some? <==> Ordinal(monday) + 6 <= MaxOrdinal
  {
    forall i | 0 <= i < 7
      ensures AddDays(monday, i).Some? <==> Ordinal(monday) + i <= MaxOrdinal
    {
      OrdinalRange(monday);
      AddDaysOrdinal(monday, i);
    }
    AddDaysOrdinal(monday, 6);
  }

  /** The week holds exactly the dates whose ordinals run from the Monday's to six days later. */
  lemma WeekDatesExactly(monday: Date, d: Date)
    requires BuildWeekDates(monday).Some?
    ensures d in BuildWeekDates(monday).value <==> Ordinal(monday) <= Ordinal(d) <= Ordinal(monday) + 6
  {
    var week := BuildWeekDates(monday).value;
    if d in week {
      var i :| 0 <= i < 7 && d == AddDays(monday, i).value;
      AddDaysOrdinal(monday, i);
    }
    if Ordinal(monday) <= Ordinal(d) <= Ordinal(monday) + 6 {
      var i := Ordinal(d) - Ordinal(monday);
      AddDaysOrdinal(monday, i);
      OrdinalInjective(d, AddDays(monday, i).value);
      assert d in week;
    }
  }

  /** The k-th day of the week is `monday + k` days. */
  function FirstDays(monday: Date, k: int): set<Date>
    requires 0 <= k <= 7 && forall i | 0 <= i < 7 :: AddDays(monday, i).Some?
  {
    set i | 0 <= i < k :: AddDays(monday, i).value
  }

  lemma {:induction false} FirstDaysCount(monday: Date, k: int)
    requires 0 <= k <= 7 && forall i | 0 <= i < 7 :: AddDays(monday, i).Some?
    ensures |FirstDays(monday, k)| == k
  {
    if k > 0 {
      FirstDaysCount(monday, k - 1);
      FirstDaysStep(monday, k);
    }
  }

  /** The first `k` days are the first `k - 1` and one more that is not among them. */
  lemma FirstDaysStep(monday: Date, k: int)
    requires 0 < k <= 7 && forall i | 0 <= i < 7 :: AddDays(monday, i).Some?
    ensures FirstDays(monday, k) == FirstDays(monday, k - 1) + {AddDays(monday, k - 1).value}
    ensures AddDays(monday, k - 1).value !in FirstDays(monday, k - 1)
  {
    var x := AddDays(monday, k - 1).value;
    AddDaysOrdinal(monday, k - 1);
    forall i | 0 <= i < k - 1
      ensures AddDays(monday, i).value != x
    {
      AddDaysOrdinal(monday, i);
    }
  }

  /** The week has exactly seven distinct dates, and the Monday is its minimum. */
  lemma WeekHasSevenDays(monday: Date)
    requires BuildWeekDates(monday).Some?
    ensures |BuildWeekDates(monday).value| == 7
    ensures IsMinimum(monday, BuildWeekDates(monday).value)
  {
    var week := BuildWeekDates(monday).value;
    FirstDaysCount(monday, 7);
    assert week == FirstDays(monday, 7);
    assert monday in week by {
      assert AddDays(monday, 0) == Some(monday);
    }
    forall d | d in week
      ensures AtMost(monday, d)
    {
      WeekDatesExactly(monday, d);
      OrdinalMonotone(d, monday);
    }
  }

  /** The week built around today's Monday contains today, when it fits in the calendar. */
  lemma TodayInItsWeek(today: Date)
    requires BuildWeekDates(GetMondayDate(today)).Some?
    ensures today in BuildWeekDates(GetMondayDate(today)).value
  {
    MondayOfWeek(today);
    WeekDatesExactly(GetMondayDate(today), today);
  }
}
