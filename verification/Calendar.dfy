/**
 * The concession calendar: a day is 86 400 000 elapsed milliseconds, a month is a civil UTC
 * calendar month with the day of the month clamped to the target month's last day.
 *
 * An instant is a number of milliseconds since 1970-01-01T00:00Z. Months are numbered from
 * January 1970 = 0, so that `year * 12 + month` arithmetic needs no case split.
 */
module Calendar {
  import opened Common

  datatype Unit = Day | Month

  const MS_PER_DAY := 86_400_000
  const CONCESSION_DAY_MAX := 366
  const CONCESSION_MONTH_MAX := 24

  predicate IsLeap(year: int) {
    year % 4 == 0 && (year % 100 != 0 || year % 400 == 0)
  }

  function DaysInMonth(m: int): (days: int)
    ensures 28 <= days <= 31
  {
    var year, month := 1970 + m / 12, m % 12;
    if month == 1 then (if IsLeap(year) then 29 else 28)
    else if month == 3 || month == 5 || month == 8 || month == 10 then 30
    else 31
  }

  /** Days from 1970-01-01 to the first day of the month numbered `m`. */
  function MonthStart(m: int): int
    decreases if m < 0 then -m else m
  {
    if m == 0 then 0
    else if m > 0 then MonthStart(m - 1) + DaysInMonth(m - 1)
    else MonthStart(m + 1) - DaysInMonth(m)
  }

  lemma MonthStartNext(m: int)
    ensures MonthStart(m + 1) == MonthStart(m) + DaysInMonth(m)
  {
  }

  lemma {:induction false} MonthStartGrows(m: int, n: int)
    requires m <= n
    ensures MonthStart(m) + 28 * (n - m) <= MonthStart(n)
    decreases n - m
  {
    if m < n {
      MonthStartNext(m);
      MonthStartGrows(m + 1, n);
    }
  }

  function MonthAtOrAfter(day: int, m: int): (r: int)
    requires MonthStart(m) <= day
    ensures MonthStart(r) <= day < MonthStart(r + 1)
    decreases day - MonthStart(m)
  {
    MonthStartNext(m);
    if day < MonthStart(m + 1) then m else MonthAtOrAfter(day, m + 1)
  }

  function MonthBefore(day: int, m: int): (r: int)
    requires day < MonthStart(m)
    ensures MonthStart(r) <= day < MonthStart(r + 1)
    decreases MonthStart(m) - day
  {
    MonthStartNext(m - 1);
    if MonthStart(m - 1) <= day then m - 1 else MonthBefore(day, m - 1)
  }

  /** The month a day belongs to. */
  function MonthOf(day: int): (r: int)
    ensures MonthStart(r) <= day < MonthStart(r + 1)
  {
    if MonthStart(0) <= day then MonthAtOrAfter(day, 0) else MonthBefore(day, 0)
  }

  function Min(a: int, b: int): int {
    if a < b then a else b
  }

  function AddUtcCalendarMonths(start: int, months: int): int {
    var day, timeOfDay := start / MS_PER_DAY, start % MS_PER_DAY;
    var source := MonthOf(day);
    var target := source + months;
    (MonthStart(target) + Min(day - MonthStart(source), DaysInMonth(target) - 1)) * MS_PER_DAY + timeOfDay
  }

  function ComputeConcessionEndsAt(startsAt: int, unit: Unit, duration: int): int {
    match unit
    case Day => startsAt + duration * MS_PER_DAY
    case Month => AddUtcCalendarMonths(startsAt, duration)
  }

  function ValidateConcessionDuration(unit: Unit, duration: int): Result<()> {
    if duration == 0 then Err(ZeroDuration)
    else if duration < 0 then Err(NegativeDuration)
    else if unit == Day && duration > CONCESSION_DAY_MAX then Err(InvalidDuration)
    else if unit == Month && duration > CONCESSION_MONTH_MAX then Err(InvalidDuration)
    else Ok(())
  }

  lemma MonthsAreUnique(day: int, m: int, n: int)
    requires MonthStart(m) <= day < MonthStart(m + 1)
    requires MonthStart(n) <= day < MonthStart(n + 1)
    ensures m == n
  {
    if m < n {
      MonthStartGrows(m + 1, n);
    } else if n < m {
      MonthStartGrows(n + 1, m);
    }
  }

  /**
   * Adding months lands in the intended month, keeps the time of day, keeps the day of the month
   * when the target month has it, and otherwise takes the target month's last day.
   */
  lemma MonthArithmetic(start: int, months: int)
    ensures var source, target := MonthOf(start / MS_PER_DAY), MonthOf(AddUtcCalendarMonths(start,
        months) / MS_PER_DAY);
            var from, to := start / MS_PER_DAY - MonthStart(source), AddUtcCalendarMonths(start,
                months) / MS_PER_DAY - MonthStart(target);
            && target == source + months
            && AddUtcCalendarMonths(start, months) % MS_PER_DAY == start % MS_PER_DAY
            && (from < DaysInMonth(target) ==> to == from)
            && (from >= DaysInMonth(target) ==> to == DaysInMonth(target) - 1)
  {
    var day := start / MS_PER_DAY;
    var target := MonthOf(day) + months;
    MonthStartNext(target);
    var landed := MonthStart(target) + Min(day - MonthStart(MonthOf(day)), DaysInMonth(target) - 1);
    assert AddUtcCalendarMonths(start, months) / MS_PER_DAY == landed;
    MonthsAreUnique(landed, target, MonthOf(landed));
  }

  /** Every accepted duration moves the end strictly past the start, so no later guard can fire. */
  lemma EndIsAfterStart(startsAt: int, unit: Unit, duration: int)
    requires duration >= 1
    ensures startsAt < ComputeConcessionEndsAt(startsAt, unit, duration)
  {
    if unit == Month {
      var day := startsAt / MS_PER_DAY;
      var source := MonthOf(day);
      MonthStartGrows(source + 1, source + duration);
      MonthStartNext(source + duration);
      assert day < MonthStart(source + 1) <= MonthStart(source + duration);
    }
  }

  /** Whatever is granted ends on the calendar: that many days later, or months, at the same time of day. */
  lemma EndIsOnCalendar(startsAt: int, unit: Unit, duration: int)
    ensures var end := ComputeConcessionEndsAt(startsAt, unit, duration);
            var day, endDay := startsAt / MS_PER_DAY, end / MS_PER_DAY;
            var month, endMonth := MonthOf(day), MonthOf(endDay);
            && end % 86_400_000 == startsAt % 86_400_000
            && (unit == Day ==> endDay == day + duration)
            && (unit == Month ==>
                  && endMonth == month + duration
                  && endDay - MonthStart(endMonth) == Min(day - MonthStart(month), DaysInMonth(endMonth) - 1))
  {
    match unit
    case Day =>
    case Month => MonthArithmetic(startsAt, duration);
  }

  // ----- The calendar against the standard that JavaScript's dates follow.

  /** DayFromYear of ECMAScript's time values: the day number of the first of January. */
  function DayFromYear(year: int): int {
    365 * (year - 1970) + (year - 1969) / 4 - (year - 1901) / 100 + (year - 1601) / 400
  }

  /** The days of a year before its month, from the same standard's table for month numbers. */
  function DaysBeforeMonth(year: int, month: int): int
    requires 0 <= month < 12
  {
    [0, 31, 59, 90, 120, 151, 181, 212, 243, 273, 304, 334][month] + if month >= 2 && IsLeap(year) then 1 else 0
  }

  lemma YearIsLeapOrNot(year: int)
    ensures DayFromYear(year + 1) - DayFromYear(year) == if IsLeap(year) then 366 else 365
  {
    NextQuotient(year - 1969, 4);
    NextQuotient(year - 1901, 100);
    NextQuotient(year - 1601, 400);
    assert year % 400 == 0 ==> year % 100 == 0;
    assert year % 100 == 0 ==> year % 4 == 0;
  }

  lemma NextQuotient(x: int, k: int)
    requires k == 4 || k == 100 || k == 400
    ensures (x + 1) / k == x / k + if (x + 1) % k == 0 then 1 else 0
  {
  }

  /** The first day of the month numbered `m`, by the standard's tables. */
  function StandardMonthStart(m: int): int {
    DayFromYear(1970 + m / 12) + DaysBeforeMonth(1970 + m / 12, m % 12)
  }

  lemma StandardMonthStep(m: int)
    ensures StandardMonthStart(m + 1) == StandardMonthStart(m) + DaysInMonth(m)
  {
    var year, month := 1970 + m / 12, m % 12;
    if month == 11 {
      assert (m + 1) / 12 == m / 12 + 1 && (m + 1) % 12 == 0;
      YearIsLeapOrNot(year);
    } else {
      assert (m + 1) / 12 == m / 12 && (m + 1) % 12 == month + 1;
    }
  }

  /** Month lengths add up in one way only. */
  lemma {:induction false} MonthStartIsOnlySum(f: int -> int, m: int)
    requires f(0) == 0 && forall k {:trigger DaysInMonth(k)} :: f(k + 1) == f(k) + DaysInMonth(k)
    ensures MonthStart(m) == f(m)
    decreases if m < 0 then -m else m
  {
    if m > 0 {
      MonthStartIsOnlySum(f, m - 1);
      assert f(m - 1 + 1) == f(m - 1) + DaysInMonth(m - 1);
    } else if m < 0 {
      MonthStartIsOnlySum(f, m + 1);
      assert f(m + 1) == f(m) + DaysInMonth(m);
    }
  }

  /** Every month starts where the standard's year and month tables put it. */
  lemma MonthsFollowStandard(m: int)
    ensures MonthStart(m) == StandardMonthStart(m)
  {
    forall k ensures StandardMonthStart(k + 1) == StandardMonthStart(k) + DaysInMonth(k) {
      StandardMonthStep(k);
    }
    assert StandardMonthStart(0) == 0;
    MonthStartIsOnlySum(StandardMonthStart, m);
  }
}
