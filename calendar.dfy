/**
 * Calendar days of the proleptic Gregorian calendar, numbered as Python's
 * date.toordinal() numbers them: day 1 is 1 January of year 1, a Monday.
 * The conversion back to (year, month, day) is what strftime uses to render
 * the dates of a justification.
 */
module Calendar {

  /** A calendar day, as an ordinal. */
  type Day = n: int | n >= 1 witness 1

  /** Day of the week as date.weekday() gives it: 0 is Monday, 6 is Sunday. */
  function Weekday(d: Day): (w: int)
    ensures 0 <= w < 7
  {
    (d + 6) % 7
  }

  predicate IsWeekend(d: Day) {
    Weekday(d) >= 5
  }

  /** The next day is the next day of the week; a week later is the same day of the week. */
  lemma WeekdayCycle(d: Day)
    ensures Weekday(d + 1) == (Weekday(d) + 1) % 7
    ensures Weekday(d + 7) == Weekday(d)
  {
    var q, r := (d + 6) / 7, (d + 6) % 7;
    Remainder(d + 6, 7, q, r);
    Remainder(d + 13, 7, q + 1, r);
    if r == 6 {
      Remainder(d + 7, 7, q + 1, 0);
    } else {
      Remainder(d + 7, 7, q, r + 1);
    }
  }

  /** The quotient and remainder of a division by a positive constant are unique. */
  lemma Remainder(x: int, m: int, q: int, r: int)
    requires m == 7 || m == 4 || m == 100 || m == 400
    requires x == m * q + r && 0 <= r < m
    ensures x / m == q && x % m == r
  {
  }

  predicate IsLeap(year: int) {
    year % 4 == 0 && (year % 100 != 0 || year % 400 == 0)
  }

  function DaysInYear(year: int): int {
    if IsLeap(year) then 366 else 365
  }

  function DaysInMonth(year: int, month: int): (n: int)
    requires 1 <= month <= 12
    ensures 28 <= n <= 31
  {
    if month == 2 then (if IsLeap(year) then 29 else 28)
    else if month == 4 || month == 6 || month == 9 || month == 11 then 30
    else 31
  }

  /** Days of the year that come before the first of the month. */
  function DaysBeforeMonth(year: int, month: int): (n: int)
    requires 1 <= month <= 12
    ensures 0 <= n <= 335
  {
    var common :=
      if month == 1 then 0 else if month == 2 then 31 else if month == 3 then 59
      else if month == 4 then 90 else if month == 5 then 120 else if month == 6 then 151
      else if month == 7 then 181 else if month == 8 then 212 else if month == 9 then 243
      else if month == 10 then 273 else if month == 11 then 304 else 334;
    common + (if month > 2 && IsLeap(year) then 1 else 0)
  }

  /** Days of all the years before the given one (the closed formula Python uses). */
  function DaysBeforeYear(year: int): (n: int)
    requires year >= 1
    ensures n >= 0
  {
    var y := year - 1;
    365 * y + y / 4 - y / 100 + y / 400
  }

  /** The months of a year follow one another and together fill the year. */
  lemma MonthStep(year: int, month: int)
    requires 1 <= month <= 12
    ensures month < 12 ==> DaysBeforeMonth(year, month + 1) == DaysBeforeMonth(year, month) + DaysInMonth(year, month)
    ensures month == 12 ==> DaysBeforeMonth(year, month) + DaysInMonth(year, month) == DaysInYear(year)
  {
  }

  /**
   * Going from one year to the next adds one to year / m exactly when the
   * new year is a multiple of m.
   */
  lemma DivisionStep(year: int, m: int)
    requires year >= 1 && (m == 4 || m == 100 || m == 400)
    ensures year / m == (year - 1) / m + (if year % m == 0 then 1 else 0)
  {
    var q, r := (year - 1) / m, (year - 1) % m;
    Remainder(year - 1, m, q, r);
    if r == m - 1 {
      Remainder(year, m, q + 1, 0);
    } else {
      Remainder(year, m, q, r + 1);
    }
  }

  /** A multiple of 400 is a multiple of 100, and a multiple of 100 is a multiple of 4. */
  lemma MultiplesNest(year: int)
    ensures year % 400 == 0 ==> year % 100 == 0
    ensures year % 100 == 0 ==> year % 4 == 0
  {
    if year % 400 == 0 {
      Remainder(year, 400, year / 400, 0);
      Remainder(year, 100, 4 * (year / 400), 0);
    }
    if year % 100 == 0 {
      Remainder(year, 100, year / 100, 0);
      Remainder(year, 4, 25 * (year / 100), 0);
    }
  }

  /** The closed formula for the days before a year adds up the lengths of the years. */
  lemma YearStep(year: int)
    requires year >= 1
    ensures DaysBeforeYear(year + 1) == DaysBeforeYear(year) + DaysInYear(year)
  {
    DivisionStep(year, 4);
    DivisionStep(year, 100);
    DivisionStep(year, 400);
    MultiplesNest(year);
    var leap := (if year % 4 == 0 then 1 else 0) - (if year % 100 == 0 then 1 else 0) + (if year % 400 == 0 then 1 else 0);
    assert leap == (if IsLeap(year) then 1 else 0);
    calc {
      DaysBeforeYear(year + 1);
      365 * year + year / 4 - year / 100 + year / 400;
      365 * (year - 1) + (year - 1) / 4 - (year - 1) / 100 + (year - 1) / 400 + 365 + leap;
      DaysBeforeYear(year) + DaysInYear(year);
    }
  }

  lemma {:induction false} DaysBeforeYearMonotone(y1: int, y2: int)
    requires 1 <= y1 <= y2
    ensures DaysBeforeYear(y1) <= DaysBeforeYear(y2)
    decreases y2 - y1
  {
    if y1 < y2 {
      YearStep(y1);
      DaysBeforeYearMonotone(y1 + 1, y2);
    }
  }

  lemma {:induction false} DaysBeforeMonthMonotone(year: int, m1: int, m2: int)
    requires 1 <= m1 <= m2 <= 12
    ensures DaysBeforeMonth(year, m1) + (if m1 < m2 then DaysInMonth(year, m1) else 0) <= DaysBeforeMonth(year, m2)
    decreases m2 - m1
  {
    if m1 < m2 {
      MonthStep(year, m1);
      if m1 + 1 < m2 {
        DaysBeforeMonthMonotone(year, m1 + 1, m2);
      }
    }
  }

  datatype Date = Date(year: int, month: int, day: int)

  predicate ValidDate(dt: Date) {
    dt.year >= 1 && 1 <= dt.month <= 12 && 1 <= dt.day <= DaysInMonth(dt.year, dt.month)
  }

  /** date(year, month, day).toordinal() */
  function OrdinalOf(dt: Date): Day
    requires ValidDate(dt)
  {
    DaysBeforeYear(dt.year) + DaysBeforeMonth(dt.year, dt.month) + dt.day
  }

  /** The ordinal of a date lies within the ordinals of its year. */
  lemma OrdinalWithinYear(dt: Date)
    requires ValidDate(dt)
    ensures DaysBeforeYear(dt.year) < OrdinalOf(dt) <= DaysBeforeYear(dt.year) + DaysInYear(dt.year)
  {
    MonthStep(dt.year, 12);
    DaysBeforeMonthMonotone(dt.year, dt.month, 12);
  }

  /** Distinct valid dates have distinct ordinals. */
  lemma OrdinalOfInjective(a: Date, b: Date)
    requires ValidDate(a) && ValidDate(b)
    requires OrdinalOf(a) == OrdinalOf(b)
    ensures a == b
  {
    OrdinalWithinYear(a);
    OrdinalWithinYear(b);
    if a.year < b.year {
      YearStep(a.year);
      DaysBeforeYearMonotone(a.year + 1, b.year);
      assert false;
    } else if b.year < a.year {
      YearStep(b.year);
      DaysBeforeYearMonotone(b.year + 1, a.year);
      assert false;
    }
    if a.month < b.month {
      DaysBeforeMonthMonotone(a.year, a.month, b.month);
      assert false;
    } else if b.month < a.month {
      DaysBeforeMonthMonotone(a.year, b.month, a.month);
      assert false;
    }
  }

  /** Finds the year that holds day k of the years counted from `year` on, and that day's number within it. */
  function SplitYear(k: int, year: int): (r: (int, int))
    requires year >= 1 && k >= 1
    ensures r.0 >= year && 1 <= r.1 <= DaysInYear(r.0)
    ensures DaysBeforeYear(r.0) + r.1 == DaysBeforeYear(year) + k
    decreases k
  {
    if k <= DaysInYear(year) then (year, k)
    else
      YearStep(year);
      SplitYear(k - DaysInYear(year), year + 1)
  }

  /** Finds the month that holds day k of the months counted from `month` on, and the day of that month. */
  function SplitMonth(year: int, k: int, month: int): (r: (int, int))
    requires 1 <= month <= 12
    requires 1 <= k <= DaysInYear(year) - DaysBeforeMonth(year, month)
    ensures month <= r.0 <= 12 && 1 <= r.1 <= DaysInMonth(year, r.0)
    ensures DaysBeforeMonth(year, r.0) + r.1 == DaysBeforeMonth(year, month) + k
    decreases 12 - month
  {
    MonthStep(year, month);
    if k <= DaysInMonth(year, month) then (month, k)
    else SplitMonth(year, k - DaysInMonth(year, month), month + 1)
  }

  /** date.fromordinal(n): the calendar date of an ordinal. */
  function CivilFromOrdinal(n: Day): (dt: Date)
    ensures ValidDate(dt)
  {
    var (year, k) := SplitYear(n, 1);
    var (month, day) := SplitMonth(year, k, 1);
    Date(year, month, day)
  }

  /** The date of an ordinal has that ordinal. */
  lemma OrdinalOfCivil(n: Day)
    ensures OrdinalOf(CivilFromOrdinal(n)) == n
  {
    var (year, k) := SplitYear(n, 1);
    var (month, day) := SplitMonth(year, k, 1);
    assert CivilFromOrdinal(n) == Date(year, month, day);
  }

  /** Converting a valid date to its ordinal and back gives the date again. */
  lemma CivilRoundTrip(dt: Date)
    requires ValidDate(dt)
    ensures CivilFromOrdinal(OrdinalOf(dt)) == dt
  {
    OrdinalOfCivil(OrdinalOf(dt));
    OrdinalOfInjective(CivilFromOrdinal(OrdinalOf(dt)), dt);
  }

  /** The calendar date of the day before a date. */
  function DayBefore(dt: Date): Date
    requires ValidDate(dt)
  {
    if dt.day > 1 then Date(dt.year, dt.month, dt.day - 1)
    else if dt.month > 1 then Date(dt.year, dt.month - 1, DaysInMonth(dt.year, dt.month - 1))
    else Date(dt.year - 1, 12, 31)
  }

  /** One ordinal less is the previous calendar day, across month and year ends too. */
  lemma PreviousDay(dt: Date)
    requires ValidDate(dt) && OrdinalOf(dt) >= 2
    ensures CivilFromOrdinal(OrdinalOf(dt) - 1) == DayBefore(dt)
  {
    var prev := DayBefore(dt);
    DayBeforeOrdinal(dt);
    CivilRoundTrip(prev);
  }

  /** The day before a valid date is a valid date, one ordinal earlier. */
  lemma DayBeforeOrdinal(dt: Date)
    requires ValidDate(dt) && OrdinalOf(dt) >= 2
    ensures ValidDate(DayBefore(dt)) && OrdinalOf(DayBefore(dt)) == OrdinalOf(dt) - 1
  {
    if dt.day > 1 {
    } else if dt.month > 1 {
      PreviousMonthEnd(dt.year, dt.month);
    } else {
      PreviousYearEnd(dt.year);
    }
  }

  /** The last day of the previous month comes just before the first of a month. */
  lemma PreviousMonthEnd(year: int, month: int)
    requires year >= 1 && 1 < month <= 12
    ensures var last := Date(year, month - 1, DaysInMonth(year, month - 1));
            ValidDate(last) && OrdinalOf(last) + 1 == OrdinalOf(Date(year, month, 1))
  {
    MonthStep(year, month - 1);
  }

  /** 31 December of the previous year comes just before 1 January. */
  lemma PreviousYearEnd(year: int)
    requires year > 1
    ensures ValidDate(Date(year - 1, 12, 31)) && OrdinalOf(Date(year - 1, 12, 31)) + 1 == OrdinalOf(Date(year, 1, 1))
  {
    YearStep(year - 1);
    MonthStep(year - 1, 12);
  }
}
