/** Proleptic Gregorian calendar dates with the range and arithmetic of Python's
    `datetime.date`: years 1..9999, ordinal day numbers with 0001-01-01 as day 1,
    whole-day steps that fail (OverflowError) when they leave the range, and
    comparison by (year, month, day). */
module Dates {
  import opened Wrappers

  const MinYear := 1
  const MaxYear := 9999

  datatype YMD = YMD(year: int, month: int, day: int)

  predicate IsLeap(y: int) {
    y % 4 == 0 && (y % 100 != 0 || y % 400 == 0)
  }

  function DaysInMonth(y: int, m: int): (n: int)
    requires 1 <= m <= 12
    ensures 28 <= n <= 31
    ensures n == 29 <==> m == 2 && IsLeap(y)
  {
    if m == 2 then (if IsLeap(y) then 29 else 28)
    else if m == 4 || m == 6 || m == 9 || m == 11 then 30
    else 31
  }

  function DaysInYear(y: int): int {
    if IsLeap(y) then 366 else 365
  }

  /** What `datetime.date(y, m, d)` accepts without raising ValueError. */
  predicate IsValid(d: YMD) {
    MinYear <= d.year <= MaxYear && 1 <= d.month <= 12 && 1 <= d.day <= DaysInMonth(d.year, d.month)
  }

  type Date = d: YMD | IsValid(d) witness YMD(1, 1, 1)

  const FirstDate: Date := YMD(MinYear, 1, 1)
  const LastDate: Date := YMD(MaxYear, 12, 31)

  /** Days in the years before `y` (Python's `_days_before_year`). */
  function DaysBeforeYear(y: int): int
    requires y >= 1
  {
    var p := y - 1;
    365 * p + p / 4 - p / 100 + p / 400
  }

  /** Days in the months of year `y` before month `m` (Python's `_days_before_month`). */
  function DaysBeforeMonth(y: int, m: int): int
    requires 1 <= m <= 12
  {
    var common :=
      if m == 1 then 0 else if m == 2 then 31 else if m == 3 then 59
      else if m == 4 then 90 else if m == 5 then 120 else if m == 6 then 151
      else if m == 7 then 181 else if m == 8 then 212 else if m == 9 then 243
      else if m == 10 then 273 else if m == 11 then 304 else 334;
    common + (if m > 2 && IsLeap(y) then 1 else 0)
  }

  /** Python's `date.toordinal()`. */
  function Ordinal(d: Date): int {
    DaysBeforeYear(d.year) + DaysBeforeMonth(d.year, d.month) + d.day
  }

  /** The ordinal of 9999-12-31, the largest `date.toordinal()` value. */
  const MaxOrdinal := 3652059

  /** Python's `date.weekday()`: Monday is 0, Sunday is 6. */
  function Weekday(d: Date): (w: int)
    ensures 0 <= w < 7
  {
    (Ordinal(d) + 6) % 7
  }

  /** Python's `date.isoweekday()`: Monday is 1, Sunday is 7. */
  function IsoWeekday(d: Date): (w: int)
    ensures 1 <= w <= 7
    ensures w == Weekday(d) + 1
  {
    var r := Ordinal(d) % 7;
    IsoResidue(Ordinal(d));
    if r == 0 then 7 else r
  }

  lemma IsoResidue(o: int)
    ensures (if o % 7 == 0 then 7 else o % 7) == (o + 6) % 7 + 1
  {
    var q := o / 7;
    assert o == 7 * q + o % 7;
    if o % 7 == 0 {
      assert o + 6 == 7 * q + 6;
    } else {
      assert o + 6 == 7 * (q + 1) + (o % 7 - 1);
    }
  }

  /** The next calendar day, or None past 9999-12-31. */
  function NextDay(d: Date): Option<Date> {
    if d.day < DaysInMonth(d.year, d.month) then Some(YMD(d.year, d.month, d.day + 1))
    else if d.month < 12 then Some(YMD(d.year, d.month + 1, 1))
    else if d.year < MaxYear then Some(YMD(d.year + 1, 1, 1))
    else None
  }

  /** The previous calendar day, or None before 0001-01-01. */
  function PrevDay(d: Date): Option<Date> {
    if d.day > 1 then Some(YMD(d.year, d.month, d.day - 1))
    else if d.month > 1 then Some(YMD(d.year, d.month - 1, DaysInMonth(d.year, d.month - 1)))
    else if d.year > MinYear then Some(YMD(d.year - 1, 12, 31))
    else None
  }

  /** `d + timedelta(days=n)`, with None for Python's OverflowError. */
  function AddDays(d: Date, n: int): (r: Option<Date>)
    ensures r.Some? && n > 0 ==> Before(d, r.value)
    ensures r.Some? && n < 0 ==> Before(r.value, d)
    decreases if n < 0 then -n else n
  {
    if n == 0 then Some(d)
    else if n > 0 then
      match NextDay(d)
      case None => None
      case Some(e) => AddDays(e, n - 1)
    else
      match PrevDay(d)
      case None => None
      case Some(e) => AddDays(e, n + 1)
  }

  /** Python's date comparison: lexicographic on (year, month, day). */
  predicate Before(a: Date, b: Date)
    ensures Before(a, b) ==> a != b
  {
    a.year < b.year
    || (a.year == b.year && a.month < b.month)
    || (a.year == b.year && a.month == b.month && a.day < b.day)
  }

  predicate AtMost(a: Date, b: Date) {
    a == b || Before(a, b)
  }

  /** `m` is the smallest date in `s`, as Python's `min` finds it. */
  predicate IsMinimum(m: Date, s: set<Date>) {
    m in s && forall d :: d in s ==> AtMost(m, d)
  }

  // ---------------------------------------------------------------------------
  // Ordinal arithmetic

  lemma YearStep(y: int)
    requires y >= 1
    ensures DaysBeforeYear(y + 1) == DaysBeforeYear(y) + DaysInYear(y)
  {
    DivStep(y, 4);
    DivStep(y, 100);
    DivStep(y, 400);
    Divisors(y);
  }

  /** A multiple of 400 is a multiple of 100, and a multiple of 100 one of 4. */
  lemma Divisors(y: int)
    ensures y % 400 == 0 ==> y % 100 == 0
    ensures y % 100 == 0 ==> y % 4 == 0
  {
    if y % 400 == 0 {
      MultipleOf(y, 400, 100);
    }
    if y % 100 == 0 {
      MultipleOf(y, 100, 4);
    }
  }

  lemma MultipleOf(y: int, big: int, small: int)
    requires (big == 400 && small == 100) || (big == 100 && small == 4)
    requires y % big == 0
    ensures y % small == 0
  {
    var m := (big / small) * (y / big);
    assert y == small * m;
  }

  /** Going from `y - 1` to `y` adds one to `y / k` exactly when `k` divides `y`. */
  lemma DivStep(y: int, k: int)
    requires k == 4 || k == 100 || k == 400
    ensures y / k == (y - 1) / k + (if y % k == 0 then 1 else 0)
  {
    if k == 4 {
      assert y / 4 == (y - 1) / 4 + (if y % 4 == 0 then 1 else 0);
    } else if k == 100 {
      assert y / 100 == (y - 1) / 100 + (if y % 100 == 0 then 1 else 0);
    } else {
      assert y / 400 == (y - 1) / 400 + (if y % 400 == 0 then 1 else 0);
    }
  }

  lemma {:induction false} YearsGrow(a: int, b: int)
    requires 1 <= a <= b
    ensures DaysBeforeYear(a) + 365 * (b - a) <= DaysBeforeYear(b)
    decreases b - a
  {
    if a < b {
      YearStep(a);
      YearsGrow(a + 1, b);
    }
  }

  /** The days of a date's year before it and including it never exceed the year's length. */
  lemma WithinYear(d: Date)
    ensures 1 <= DaysBeforeMonth(d.year, d.month) + d.day <= DaysInYear(d.year)
    ensures DaysBeforeMonth(d.year, d.month) + d.day == DaysInYear(d.year) <==> d.month == 12 && d.day == 31
  {
  }

  lemma MaxOrdinalValue()
    ensures DaysBeforeYear(MaxYear + 1) == MaxOrdinal
    ensures DaysBeforeYear(MaxYear) + DaysInYear(MaxYear) == MaxOrdinal
  {
    YearStep(MaxYear);
  }

  /** Every date has an ordinal in 1..MaxOrdinal; the ends are reached only by the first and last dates. */
  lemma OrdinalRange(d: Date)
    ensures 1 <= Ordinal(d) <= MaxOrdinal
    ensures Ordinal(d) == 1 <==> d == FirstDate
    ensures Ordinal(d) == MaxOrdinal <==> d == LastDate
  {
    WithinYear(d);
    MaxOrdinalValue();
    YearStep(d.year);
    YearsGrow(1, d.year);
    YearsGrow(d.year + 1, MaxYear + 1);
  }

  lemma NextDayOrdinal(d: Date)
    ensures NextDay(d).None? <==> d == LastDate
    ensures NextDay(d).Some? ==> Ordinal(NextDay(d).value) == Ordinal(d) + 1
  {
    if d.day == DaysInMonth(d.year, d.month) {
      if d.month < 12 {
        MonthStep(d.year, d.month);
      } else if d.year < MaxYear {
        YearStep(d.year);
      }
    }
  }

  lemma PrevDayOrdinal(d: Date)
    ensures PrevDay(d).None? <==> d == FirstDate
    ensures PrevDay(d).Some? ==> Ordinal(PrevDay(d).value) == Ordinal(d) - 1
  {
    if d.day == 1 {
      if d.month > 1 {
        MonthStep(d.year, d.month - 1);
      } else if d.year > MinYear {
        YearStep(d.year - 1);
      }
    }
  }

  lemma MonthStep(y: int, m: int)
    requires 1 <= m < 12
    ensures DaysBeforeMonth(y, m + 1) == DaysBeforeMonth(y, m) + DaysInMonth(y, m)
  {
  }

  /** Adding days succeeds exactly when the target ordinal is in range, and lands on it. */
  lemma AddDaysOrdinal(d: Date, n: int)
    ensures AddDays(d, n).Some? <==> 1 <= Ordinal(d) + n <= MaxOrdinal
    ensures AddDays(d, n).Some? ==> Ordinal(AddDays(d, n).value) == Ordinal(d) + n
  {
    OrdinalRange(d);
    if n >= 0 {
      AddDaysForward(d, n);
    } else {
      AddDaysBackward(d, n);
    }
  }

  lemma {:induction false} AddDaysForward(d: Date, n: nat)
    ensures AddDays(d, n).Some? <==> Ordinal(d) + n <= MaxOrdinal
    ensures AddDays(d, n).Some? ==> Ordinal(AddDays(d, n).value) == Ordinal(d) + n
    decreases n
  {
    if n > 0 {
      match NextDay(d)
      case None =>
        assert AddDays(d, n) == None;
        NextDayOrdinal(d);
        OrdinalRange(d);
      case Some(e) =>
        assert AddDays(d, n) == AddDays(e, n - 1);
        NextDayOrdinal(d);
        AddDaysForward(e, n - 1);
    } else {
      OrdinalRange(d);
    }
  }

  lemma {:induction false} AddDaysBackward(d: Date, n: int)
    requires n <= 0
    ensures AddDays(d, n).Some? <==> 1 <= Ordinal(d) + n
    ensures AddDays(d, n).Some? ==> Ordinal(AddDays(d, n).value) == Ordinal(d) + n
    decreases -n
  {
    if n < 0 {
      match PrevDay(d)
      case None =>
        assert AddDays(d, n) == None;
        PrevDayOrdinal(d);
        OrdinalRange(d);
      case Some(e) =>
        assert AddDays(d, n) == AddDays(e, n + 1);
        PrevDayOrdinal(d);
        AddDaysBackward(e, n + 1);
    } else {
      OrdinalRange(d);
    }
  }

  /** Comparing dates lexicographically agrees with comparing their ordinals. */
  lemma OrdinalMonotone(a: Date, b: Date)
    ensures Before(a, b) <==> Ordinal(a) < Ordinal(b)
  {
    WithinYear(a);
    WithinYear(b);
    if a.year < b.year {
      YearStep(a.year);
      YearsGrow(a.year + 1, b.year);
    } else if b.year < a.year {
      YearStep(b.year);
      YearsGrow(b.year + 1, a.year);
    } else {
      if a.month < b.month {
        MonthsGrow(a.year, a.month, b.month);
      } else if b.month < a.month {
        MonthsGrow(a.year, b.month, a.month);
      }
    }
  }

  lemma MonthsGrow(y: int, m1: int, m2: int)
    requires 1 <= m1 < m2 <= 12
    ensures DaysBeforeMonth(y, m1) + DaysInMonth(y, m1) <= DaysBeforeMonth(y, m2)
  {
  }

  /** Two dates with the same ordinal are the same date. */
  lemma OrdinalInjective(a: Date, b: Date)
    ensures Ordinal(a) == Ordinal(b) ==> a == b
  {
    OrdinalMonotone(a, b);
    OrdinalMonotone(b, a);
  }

  /** Moving `n` days moves the weekday `n` places, modulo 7. */
  lemma AddDaysWeekday(d: Date, n: int)
    requires AddDays(d, n).Some?
    ensures Weekday(AddDays(d, n).value) == (Weekday(d) + n) % 7
  {
    AddDaysOrdinal(d, n);
    var e := AddDays(d, n).value;
    assert Ordinal(e) + 6 == Ordinal(d) + 6 + n;
    ModShift(Ordinal(d) + 6, n);
  }

  lemma ModShift(x: int, n: int)
    ensures (x + n) % 7 == (x % 7 + n) % 7
  {
    var q := x / 7;
    assert x == 7 * q + x % 7;
    assert x + n == 7 * q + (x % 7 + n);
  }
}
