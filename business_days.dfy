/**
 * The business-day counter (contar_dias_uteis): how many days of an
 * absence are charged. The days from the leave start up to, but not
 * including, the return date count when they fall Monday to Friday and
 * are not in the holiday list.
 */
module BusinessDays {
  import opened Wrappers
  import opened Calendar

  /** A day that is charged when it falls inside an absence. */
  predicate IsBusinessDay(d: Day, holidays: seq<Day>) {
    Weekday(d) < 5 && d !in holidays
  }

  /** The number of business days d with start <= d < end. */
  function BusinessDaysIn(start: Day, end: Day, holidays: seq<Day>): (n: nat)
    ensures start <= end ==> n <= end - start
    ensures end <= start ==> n == 0
    decreases end - start
  {
    if end <= start then 0
    else BusinessDaysIn(start, end - 1, holidays) + (if IsBusinessDay(end - 1, holidays) then 1 else 0)
  }

  /** The business days of [start, end), as a set. */
  function BusinessDaySet(start: Day, end: Day, holidays: seq<Day>): set<Day> {
    set d: Day | start <= d < end && IsBusinessDay(d, holidays)
  }

  /**
   * The days an absence row is charged: none when either date is missing,
   * none for an attendance declaration (leave and return on the same day),
   * otherwise the business days from the start up to the return.
   */
  function ChargeableDays(start: Option<Day>, ret: Option<Day>, holidays: seq<Day>): (n: nat)
    ensures start.None? || ret.None? ==> n == 0
    ensures start.Some? && ret.Some? && start.value == ret.value ==> n == 0
    ensures n > 0 ==> start.Some? && ret.Some? && start.value < ret.value && n <= ret.value - start.value
  {
    if start.None? || ret.None? then 0
    else if start.value == ret.value then 0
    else BusinessDaysIn(start.value, ret.value, holidays)
  }

  /** contar_dias_uteis: walks the days from the start to the return one at a time. */
  method CountBusinessDays(start: Option<Day>, ret: Option<Day>, holidays: seq<Day>) returns (count: nat)
    ensures count == ChargeableDays(start, ret, holidays)
  {
    if start.None? || ret.None? {
      return 0;
    }
    var first, end := start.value, ret.value;
    if first == end {
      return 0;
    }
    count := 0;
    var current := first;
    while current < end
      invariant first <= current
      invariant first <= end ==> current <= end
      invariant end < first ==> current == first
      invariant count == BusinessDaysIn(first, current, holidays)
      decreases end as int - current as int
    {
      if Weekday(current) < 5 {
        if current !in holidays {
          count := count + 1;
        }
      }
      current := current + 1;
    }
  }

  /** The recursive count is the size of the set of business days in the range. */
  lemma {:induction false} BusinessDaysInIsSetSize(start: Day, end: Day, holidays: seq<Day>)
    ensures BusinessDaysIn(start, end, holidays) == |BusinessDaySet(start, end, holidays)|
    decreases end - start
  {
    if end <= start {
      assert BusinessDaySet(start, end, holidays) == {};
    } else {
      BusinessDaysInIsSetSize(start, end - 1, holidays);
      var last: Day := end - 1;
      if IsBusinessDay(last, holidays) {
        assert BusinessDaySet(start, end, holidays) == BusinessDaySet(start, last, holidays) + {last};
      } else {
        assert BusinessDaySet(start, end, holidays) == BusinessDaySet(start, last, holidays);
      }
    }
  }

  /** Counting over adjacent ranges adds up. */
  lemma {:induction false} BusinessDaysSplit(a: Day, b: Day, c: Day, holidays: seq<Day>)
    requires a <= b <= c
    ensures BusinessDaysIn(a, c, holidays) == BusinessDaysIn(a, b, holidays) + BusinessDaysIn(b, c, holidays)
    decreases c - b
  {
    if b < c {
      BusinessDaysSplit(a, b, c - 1, holidays);
    }
  }

  /** The count is zero exactly when no day of the range is a business day. */
  lemma {:induction false} ZeroIffNoBusinessDay(start: Day, end: Day, holidays: seq<Day>)
    ensures BusinessDaysIn(start, end, holidays) == 0 <==>
            forall d: Day :: start <= d < end ==> !IsBusinessDay(d, holidays)
    decreases end - start
  {
    if start < end {
      ZeroIffNoBusinessDay(start, end - 1, holidays);
    }
  }

  /** A range that lies entirely on a weekend is charged nothing. */
  lemma WeekendRangeCountsZero(start: Day, ret: Day, holidays: seq<Day>)
    requires forall d: Day :: start <= d < ret ==> IsWeekend(d)
    ensures ChargeableDays(Some(start), Some(ret), holidays) == 0
  {
    forall d: Day | start <= d < ret
      ensures !IsBusinessDay(d, holidays)
    {
      assert IsWeekend(d);
    }
    ZeroIffNoBusinessDay(start, ret, holidays);
  }

  /** A range whose every day is a holiday is charged nothing. */
  lemma HolidayRangeCountsZero(start: Day, ret: Day, holidays: seq<Day>)
    requires forall d: Day :: start <= d < ret ==> d in holidays
    ensures ChargeableDays(Some(start), Some(ret), holidays) == 0
  {
    forall d: Day | start <= d < ret
      ensures !IsBusinessDay(d, holidays)
    {
      assert d in holidays;
    }
    ZeroIffNoBusinessDay(start, ret, holidays);
  }

  /**
   * Moving the return date one day later adds exactly the day that is now
   * included: one when it is a weekday that is not a holiday, else nothing.
   */
  lemma ExtendReturnByOneDay(start: Day, ret: Day, holidays: seq<Day>)
    requires start <= ret
    ensures ChargeableDays(Some(start), Some(ret + 1), holidays) ==
            ChargeableDays(Some(start), Some(ret), holidays) + (if IsBusinessDay(ret, holidays) then 1 else 0)
  {
  }

  /** The return day itself is never charged: declaring it a holiday changes nothing. */
  lemma {:induction false} ReturnDayNeverCounted(start: Day, ret: Day, holidays: seq<Day>)
    ensures ChargeableDays(Some(start), Some(ret), holidays) == ChargeableDays(Some(start), Some(ret), holidays + [ret])
  {
    if start < ret {
      SameCountOutsideRange(start, ret, holidays, holidays + [ret]);
    }
  }

  /** Holiday lists that agree on a range give that range the same count. */
  lemma {:induction false} SameCountOutsideRange(start: Day, end: Day, h1: seq<Day>, h2: seq<Day>)
    requires forall d: Day :: start <= d < end ==> (d in h1 <==> d in h2)
    ensures BusinessDaysIn(start, end, h1) == BusinessDaysIn(start, end, h2)
    decreases end - start
  {
    if start < end {
      SameCountOutsideRange(start, end - 1, h1, h2);
    }
  }

  /** Without holidays, any seven consecutive days hold exactly five business days. */
  lemma {:induction false} FullWeekHasFiveBusinessDays(start: Day)
    ensures BusinessDaysIn(start, start + 7, []) == 5
    decreases start
  {
    if start == 1 {
      assert BusinessDaysIn(1, 6, []) == 5;
      assert BusinessDaysIn(1, 8, []) == 5;
    } else {
      var prev: Day := start - 1;
      FullWeekHasFiveBusinessDays(prev);
      BusinessDaysSplit(prev, start, start + 7, []);
      BusinessDaysSplit(prev, prev + 7, start + 7, []);
      WeekdayCycle(prev);
    }
  }

  /** Monday 4 to Wednesday 6 March 2024, no holidays: Monday and Tuesday are charged. */
  lemma MondayToWednesday()
    ensures var monday := OrdinalOf(Date(2024, 3, 4));
            Weekday(monday) == 0 &&
            ChargeableDays(Some(monday), Some(OrdinalOf(Date(2024, 3, 6))), []) == 2
  {
    assert OrdinalOf(Date(2024, 3, 4)) == 738949;
    assert OrdinalOf(Date(2024, 3, 6)) == 738951;
  }

  /** Friday 8 to Monday 11 March 2024: only the Friday is charged. */
  lemma FridayToMonday()
    ensures var friday := OrdinalOf(Date(2024, 3, 8));
            Weekday(friday) == 4 &&
            ChargeableDays(Some(friday), Some(OrdinalOf(Date(2024, 3, 11))), []) == 1
  {
    assert OrdinalOf(Date(2024, 3, 8)) == 738953;
    assert OrdinalOf(Date(2024, 3, 11)) == 738956;
    assert BusinessDaysIn(738953, 738956, []) == 1;
  }

  /** A holiday on Tuesday 5 March 2024 takes one day off the Monday-to-Wednesday absence. */
  lemma HolidayInsideRange()
    ensures ChargeableDays(Some(OrdinalOf(Date(2024, 3, 4))), Some(OrdinalOf(Date(2024, 3, 6))), [OrdinalOf(Date(2024, 3, 5))]) == 1
  {
    assert OrdinalOf(Date(2024, 3, 4)) == 738949;
    assert OrdinalOf(Date(2024, 3, 5)) == 738950;
    assert OrdinalOf(Date(2024, 3, 6)) == 738951;
  }
}
