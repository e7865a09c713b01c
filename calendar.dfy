/** Calendar arithmetic of ECMAScript Date objects, in one fixed time zone.

    A date is kept as its civil fields (year, zero-based month, day of month,
    milliseconds into the day).  Its time value, the number ECMAScript compares when
    one Date is compared with another, is built from the year formula DayFromYear of
    section 21.4.1 of ECMA-262.  Date.prototype.setMonth (section 21.4.4.25) and
    Date.prototype.setDate (section 21.4.4.20) both go through MakeDay, which lets a
    day of month larger than the month's length spill into the months after it; the
    civil-field versions below are proved to land on exactly MakeDay's day. */
module Calendar {

  const MsPerDay: int := 86400000

  datatype CivilTime = CivilTime(year: int, month: int, day: int, msOfDay: int)

  /** InLeapYear of ECMA-262: 366-day years. */
  predicate InLeapYear(y: int) {
    y % 4 == 0 && (y % 100 != 0 || y % 400 == 0)
  }

  function DaysInYear(y: int): int {
    if InLeapYear(y) then 366 else 365
  }

  function LeapDay(y: int): int {
    if InLeapYear(y) then 1 else 0
  }

  /** Length of month m (0 = January) of year y. */
  function DaysInMonth(y: int, m: int): int
    requires 0 <= m < 12
  {
    if m == 1 then 28 + LeapDay(y)
    else if m == 3 || m == 5 || m == 8 || m == 10 then 30
    else 31
  }

  /** Days of year y that lie before the first of month m: the table behind
      MonthFromTime in ECMA-262. */
  function DaysBeforeMonth(y: int, m: int): int
    requires 0 <= m < 12
  {
    var l := LeapDay(y);
    if m == 0 then 0
    else if m == 1 then 31
    else if m == 2 then 59 + l
    else if m == 3 then 90 + l
    else if m == 4 then 120 + l
    else if m == 5 then 151 + l
    else if m == 6 then 181 + l
    else if m == 7 then 212 + l
    else if m == 8 then 243 + l
    else if m == 9 then 273 + l
    else if m == 10 then 304 + l
    else 334 + l
  }

  predicate IsValid(t: CivilTime) {
    && 0 <= t.month < 12
    && 1 <= t.day <= DaysInMonth(t.year, t.month)
    && 0 <= t.msOfDay < MsPerDay
  }

  /** A Date object in a fixed time zone. */
  type Date = t: CivilTime | IsValid(t) witness CivilTime(1970, 0, 1, 0)

  /** DayFromYear of ECMA-262: the day number of January 1 of year y, in closed
      form (Dafny's division by a positive constant is floor division). */
  function DayFromYear(y: int): int {
    365 * (y - 1970) + (y - 1969) / 4 - (y - 1901) / 100 + (y - 1601) / 400
  }

  /** The day number of January 1 of year y, counted year by year from 1970; lemma
      YearStartIsDayFromYear shows it is DayFromYear. */
  function YearStart(y: int): int
    decreases if y < 1970 then 1970 - y else y - 1970
  {
    if y == 1970 then 0
    else if y > 1970 then YearStart(y - 1) + DaysInYear(y - 1)
    else YearStart(y + 1) - DaysInYear(y)
  }

  /** Day number of the first of month m of year y. */
  function FirstOfMonth(y: int, m: int): int
    requires 0 <= m < 12
  {
    YearStart(y) + DaysBeforeMonth(y, m)
  }

  /** Day(t) of ECMA-262: days since 1970-01-01. */
  function DayNumber(t: Date): int {
    FirstOfMonth(t.year, t.month) + t.day - 1
  }

  /** The time value of a date: milliseconds since 1970-01-01T00:00. */
  function TimeValue(t: Date): int {
    DayNumber(t) * MsPerDay + t.msOfDay
  }

  /** `a > b` on Date objects. */
  predicate Later(a: Date, b: Date) {
    TimeValue(a) > TimeValue(b)
  }

  /** `a <= b` on Date objects. */
  predicate NotLater(a: Date, b: Date) {
    TimeValue(a) <= TimeValue(b)
  }

  /** MakeDay(year, month, date) of ECMA-262: the month may lie outside 0..11 (whole
      years are carried) and the date outside the month (the extra days run on). */
  function MakeDay(year: int, month: int, date: int): int {
    FirstOfMonth(year + month / 12, month % 12) + date - 1
  }

  /** The civil date `d - 1` days after the first of month m of year y. */
  function Rollover(y: int, m: int, d: int, ms: int): Date
    requires 0 <= m < 12 && 1 <= d && 0 <= ms < MsPerDay
    decreases d
  {
    if d <= DaysInMonth(y, m) then CivilTime(y, m, d, ms)
    else if m == 11 then Rollover(y + 1, 0, d - 31, ms)
    else Rollover(y, m + 1, d - DaysInMonth(y, m), ms)
  }

  /** Date.prototype.setMonth(month) on t: the year, day of month and time of day
      are kept, the month is replaced, and the result is normalised as by MakeDay
      (lemma SetMonthIsMakeDay). */
  function SetMonth(t: Date, month: int): Date {
    Rollover(t.year + month / 12, month % 12, t.day, t.msOfDay)
  }

  /** `t.setMonth(t.getMonth() + k)`: k calendar months after t. */
  function AddMonths(t: Date, k: int): Date {
    SetMonth(t, t.month + k)
  }

  /** Date.prototype.setDate(date) on t for a date of at least 1, normalised as by
      MakeDay (lemma SetDateIsMakeDay). */
  function SetDate(t: Date, date: int): Date
    requires 1 <= date
  {
    Rollover(t.year, t.month, date, t.msOfDay)
  }

  /** `t.setDate(t.getDate() + n)`: n calendar days after t. */
  function AddDays(t: Date, n: nat): Date {
    SetDate(t, t.day + n)
  }

  // ---------------------------------------------------------------------------
  // Arithmetic behind the year formula

  /** Quotient and remainder by the leap-year periods are fixed by a == k * q + r. */
  lemma DivMod4(a: int, q: int, r: int)
    requires a == 4 * q + r && 0 <= r < 4
    ensures a / 4 == q && a % 4 == r
  {
  }

  lemma DivMod100(a: int, q: int, r: int)
    requires a == 100 * q + r && 0 <= r < 100
    ensures a / 100 == q && a % 100 == r
  {
  }

  lemma DivMod400(a: int, q: int, r: int)
    requires a == 400 * q + r && 0 <= r < 400
    ensures a / 400 == q && a % 400 == r
  {
  }

  /** Each term of DayFromYear steps up, from year y to year y + 1, exactly when y
      is a multiple of its period. */
  lemma QuadrennialStep(y: int)
    ensures (y - 1968) / 4 == (y - 1969) / 4 + (if y % 4 == 0 then 1 else 0)
  {
    var q, r := y / 4, y % 4;
    DivMod4(y - 1968, q - 492, r);
    if r == 0 {
      DivMod4(y - 1969, q - 493, 3);
    } else {
      DivMod4(y - 1969, q - 492, r - 1);
    }
  }

  lemma CenturyStep(y: int)
    ensures (y - 1900) / 100 == (y - 1901) / 100 + (if y % 100 == 0 then 1 else 0)
  {
    var q, r := y / 100, y % 100;
    DivMod100(y - 1900, q - 19, r);
    if r == 0 {
      DivMod100(y - 1901, q - 20, 99);
    } else {
      DivMod100(y - 1901, q - 19, r - 1);
    }
  }

  lemma QuadricentennialStep(y: int)
    ensures (y - 1600) / 400 == (y - 1601) / 400 + (if y % 400 == 0 then 1 else 0)
  {
    var q, r := y / 400, y % 400;
    DivMod400(y - 1600, q - 4, r);
    if r == 0 {
      DivMod400(y - 1601, q - 5, 399);
    } else {
      DivMod400(y - 1601, q - 4, r - 1);
    }
  }

  /** ECMA-262's closed form grows by DaysInYear(y) from year y to year y + 1. */
  lemma DayFromYearStep(y: int)
    ensures DayFromYear(y + 1) == DayFromYear(y) + DaysInYear(y)
  {
    QuadrennialStep(y);
    CenturyStep(y);
    QuadricentennialStep(y);
    if y % 400 == 0 {
      DivMod100(y, 4 * (y / 400), 0);
    }
    if y % 100 == 0 {
      DivMod4(y, 25 * (y / 100), 0);
    }
  }

  /** Counting years one by one gives exactly ECMA-262's DayFromYear. */
  lemma {:induction false} YearStartIsDayFromYear(y: int)
    ensures YearStart(y) == DayFromYear(y)
    decreases if y < 1970 then 1970 - y else y - 1970
  {
    if y > 1970 {
      YearStartIsDayFromYear(y - 1);
      DayFromYearStep(y - 1);
    } else if y < 1970 {
      YearStartIsDayFromYear(y + 1);
      DayFromYearStep(y);
    }
  }

  /** January 1 of year y + 1 is DaysInYear(y) days after January 1 of year y. */
  lemma YearStep(y: int)
    ensures YearStart(y + 1) == YearStart(y) + DaysInYear(y)
  {
  }

  /** The first of the month after (y, m) is DaysInMonth(y, m) days later. */
  lemma MonthStep(y: int, m: int)
    requires 0 <= m < 12
    ensures m < 11 ==> FirstOfMonth(y, m + 1) == FirstOfMonth(y, m) + DaysInMonth(y, m)
    ensures m == 11 ==> FirstOfMonth(y + 1, 0) == FirstOfMonth(y, m) + DaysInMonth(y, m)
  {
    if m == 11 {
      YearStep(y);
    }
  }

  /** Rollover lands on the day MakeDay names, keeping the time of day. */
  lemma {:induction false} RolloverDayNumber(y: int, m: int, d: int, ms: int)
    requires 0 <= m < 12 && 1 <= d && 0 <= ms < MsPerDay
    ensures DayNumber(Rollover(y, m, d, ms)) == FirstOfMonth(y, m) + d - 1
    ensures Rollover(y, m, d, ms).msOfDay == ms
    decreases d
  {
    MonthStep(y, m);
    if d <= DaysInMonth(y, m) {
    } else if m == 11 {
      RolloverDayNumber(y + 1, 0, d - 31, ms);
    } else {
      RolloverDayNumber(y, m + 1, d - DaysInMonth(y, m), ms);
    }
  }

  /** setMonth lands on the day MakeDay computes and keeps the time of day. */
  lemma SetMonthIsMakeDay(t: Date, month: int)
    ensures DayNumber(SetMonth(t, month)) == MakeDay(t.year, month, t.day)
    ensures SetMonth(t, month).msOfDay == t.msOfDay
    ensures TimeValue(SetMonth(t, month)) == MakeDay(t.year, month, t.day) * MsPerDay + t.msOfDay
  {
    RolloverDayNumber(t.year + month / 12, month % 12, t.day, t.msOfDay);
  }

  /** setDate lands on the day MakeDay computes and keeps the time of day. */
  lemma SetDateIsMakeDay(t: Date, date: int)
    requires 1 <= date
    ensures DayNumber(SetDate(t, date)) == MakeDay(t.year, t.month, date)
    ensures SetDate(t, date).msOfDay == t.msOfDay
    ensures TimeValue(SetDate(t, date)) == MakeDay(t.year, t.month, date) * MsPerDay + t.msOfDay
  {
    RolloverDayNumber(t.year, t.month, date, t.msOfDay);
    assert t.month / 12 == 0 && t.month % 12 == t.month;
  }

  // ---------------------------------------------------------------------------
  // What setMonth and setDate do to the civil fields

  /** k months after t: the month index is advanced by k with whole years carried
      into the year, the time of day is kept, and a day of month the target month
      does not have spills into the month after it (January 31 plus one month is
      March 2 or March 3). */
  lemma AddMonthsFields(t: Date, k: int)
    ensures var y, m := t.year + (t.month + k) / 12, (t.month + k) % 12;
      && (t.day <= DaysInMonth(y, m) ==>
            AddMonths(t, k) == CivilTime(y, m, t.day, t.msOfDay))
      && (t.day > DaysInMonth(y, m) && m < 11 ==>
            AddMonths(t, k) == CivilTime(y, m + 1, t.day - DaysInMonth(y, m), t.msOfDay))
  {
    var y, m := t.year + (t.month + k) / 12, (t.month + k) % 12;
    if t.day > DaysInMonth(y, m) {
      if m < 11 {
        var d := t.day - DaysInMonth(y, m);
        assert d <= 3 <= DaysInMonth(y, m + 1);
        assert Rollover(y, m + 1, d, t.msOfDay) == CivilTime(y, m + 1, d, t.msOfDay);
      }
    }
  }

  /** Advancing the month argument of MakeDay by one moves the day by the length of
      the month it passes. */
  lemma MakeDayNextMonth(year: int, month: int, date: int)
    ensures MakeDay(year, month + 1, date)
         == MakeDay(year, month, date) + DaysInMonth(year + month / 12, month % 12)
    ensures MakeDay(year, month + 1, date) >= MakeDay(year, month, date) + 28
  {
    var y, m := year + month / 12, month % 12;
    assert (month + 1) / 12 == month / 12 + (if m == 11 then 1 else 0);
    assert (month + 1) % 12 == (if m == 11 then 0 else m + 1);
    MonthStep(y, m);
  }

  /** A sequence of days that grows by at least 28 per step. */
  lemma {:induction false} StepsOfAtLeast28(f: int -> int, base: int, k: nat)
    requires forall i, j :: j == i + 1 ==> f(j) >= f(i) + 28
    ensures f(base + k) >= f(base) + 28 * k
    decreases k
  {
    if k > 0 {
      StepsOfAtLeast28(f, base, k - 1);
      assert f(base + k) >= f(base + k - 1) + 28;
    }
  }

  /** Every month of validity adds at least 28 days. */
  lemma MakeDayMonotone(year: int, month: int, date: int, k: nat)
    ensures MakeDay(year, month + k, date) >= MakeDay(year, month, date) + 28 * k
  {
    var f := j => MakeDay(year, j, date);
    forall i, j | j == i + 1 ensures f(j) >= f(i) + 28 {
      MakeDayNextMonth(year, i, date);
    }
    StepsOfAtLeast28(f, month, k);
  }

  lemma MakeDayFromDate(t: Date, k: nat)
    ensures MakeDay(t.year, t.month + k, t.day) >= DayNumber(t) + 28 * k
  {
    MakeDayMonotone(t.year, t.month, t.day, k);
    MakeDayOfDate(t);
  }

  /** Each month of validity adds at least 28 days. */
  lemma AddMonthsDayGap(t: Date, k: nat)
    ensures DayNumber(AddMonths(t, k)) >= DayNumber(t) + 28 * k
  {
    SetMonthIsMakeDay(t, t.month + k);
    MakeDayFromDate(t, k);
  }

  /** A subscription of at least one month ends strictly after it starts. */
  lemma AddMonthsLater(t: Date, k: int)
    requires 1 <= k
    ensures Later(AddMonths(t, k), t)
  {
    AddMonthsDayGap(t, k);
    LaterByDays(AddMonths(t, k), t);
  }

  /** MakeDay of a date's own fields is its day number. */
  lemma MakeDayOfDate(t: Date)
    ensures MakeDay(t.year, t.month, t.day) == DayNumber(t)
  {
    assert t.month / 12 == 0 && t.month % 12 == t.month;
  }

  lemma LaterByDays(a: Date, b: Date)
    requires DayNumber(a) > DayNumber(b)
    ensures Later(a, b)
  {
  }

  /** `t.setDate(t.getDate() + n)` is exactly n * 24 hours later. */
  lemma AddDaysTimeValue(t: Date, n: nat)
    ensures TimeValue(AddDays(t, n)) == TimeValue(t) + n * MsPerDay
  {
    SetDateIsMakeDay(t, t.day + n);
    MakeDayOfDate(t);
  }

  // ---------------------------------------------------------------------------
  // A valid civil date is determined by its time value

  lemma DayInMonthRange(t: Date)
    ensures FirstOfMonth(t.year, t.month) <= DayNumber(t)
    ensures t.month < 11 ==> DayNumber(t) < FirstOfMonth(t.year, t.month + 1)
    ensures YearStart(t.year) <= DayNumber(t) < YearStart(t.year + 1)
  {
    MonthStep(t.year, t.month);
    YearStep(t.year);
  }

  lemma {:induction false} YearStartMonotone(a: int, b: int)
    requires a <= b
    ensures YearStart(a) <= YearStart(b)
    decreases b - a
  {
    if a < b {
      YearStep(a);
      YearStartMonotone(a + 1, b);
    }
  }

  lemma DaysBeforeMonthMonotone(y: int, m1: int, m2: int)
    requires 0 <= m1 < m2 < 12
    ensures DaysBeforeMonth(y, m1) + DaysInMonth(y, m1) <= DaysBeforeMonth(y, m2)
  {
  }

  lemma EarlierYear(a: Date, b: Date)
    requires a.year < b.year
    ensures DayNumber(a) < DayNumber(b)
  {
    DayInMonthRange(a);
    DayInMonthRange(b);
    YearStartMonotone(a.year + 1, b.year);
  }

  lemma EarlierMonth(a: Date, b: Date)
    requires a.year == b.year && a.month < b.month
    ensures DayNumber(a) < DayNumber(b)
  {
    DaysBeforeMonthMonotone(a.year, a.month, b.month);
  }

  /** Distinct valid dates have distinct time values, so the ensures of SetMonth
      and SetDate fix their result completely. */
  lemma TimeValueInjective(a: Date, b: Date)
    requires TimeValue(a) == TimeValue(b)
    ensures a == b
  {
    assert DayNumber(a) == DayNumber(b) && a.msOfDay == b.msOfDay;
    if a.year < b.year {
      EarlierYear(a, b);
      assert false;
    } else if b.year < a.year {
      EarlierYear(b, a);
      assert false;
    } else if a.month < b.month {
      EarlierMonth(a, b);
      assert false;
    } else if b.month < a.month {
      EarlierMonth(b, a);
      assert false;
    }
  }

  // ---------------------------------------------------------------------------
  // Pinned examples of the rollover rule

  lemma LeapYearJanuaryThirtyFirst()
    ensures AddMonths(CivilTime(2024, 0, 31, 0), 1) == CivilTime(2024, 2, 2, 0)
  {
  }

  lemma CommonYearJanuaryThirtyFirst()
    ensures AddMonths(CivilTime(2023, 0, 31, 0), 1) == CivilTime(2023, 2, 3, 0)
  {
  }

  lemma MidMonthPlusOneMonth()
    ensures AddMonths(CivilTime(2024, 0, 15, 0), 1) == CivilTime(2024, 1, 15, 0)
  {
  }
}
