/** Proleptic Gregorian calendar arithmetic on whole days. A day number
    counts days from 1 January of year 1 (day 0); DayNumber normalises an
    out-of-range month or day the way PHP's mktime does (month 0 is
    December of the year before, day 0 the last day of the month before). */
module Calendar {

  predicate IsLeapYear(y: int)
  {
    y % 4 == 0 && (y % 100 != 0 || y % 400 == 0)
  }

  function DaysInMonth(y: int, m: int): (n: int)
    requires 1 <= m <= 12
    ensures 28 <= n <= 31
    ensures n == 29 <==> m == 2 && IsLeapYear(y)
  {
    if m == 2 then (if IsLeapYear(y) then 29 else 28)
    else if m == 4 || m == 6 || m == 9 || m == 11 then 30
    else 31
  }

  /** Days of year y before the first of month m. */
  function DaysBeforeMonth(y: int, m: int): int
    requires 1 <= m <= 12
  {
    var table := [0, 31, 59, 90, 120, 151, 181, 212, 243, 273, 304, 334];
    table[m - 1] + (if m > 2 && IsLeapYear(y) then 1 else 0)
  }

  /** Days from 1 January of year 1 to 1 January of year y. */
  function DaysBeforeYear(y: int): int
  {
    365 * (y - 1) + (y - 1) / 4 - (y - 1) / 100 + (y - 1) / 400
  }

  /** The day number of (y, m, d), any month and day normalised as by mktime. */
  function DayNumber(y: int, m: int, d: int): int
  {
    var year := y + (m - 1) / 12;
    var month := (m - 1) % 12 + 1;
    DaysBeforeYear(year) + DaysBeforeMonth(year, month) + d - 1
  }

  /** The day number of 1 January 1970, the Unix epoch. */
  const UnixEpochDay: int := DayNumber(1970, 1, 1)

  lemma {:induction false} DivStep(a: int, k: int)
    requires k == 4 || k == 100 || k == 400
    ensures a / k - (a - 1) / k == if a % k == 0 then 1 else 0
  {
    var q, r := a / k, a % k;
    assert a == k * q + r && 0 <= r < k;
    if r == 0 {
      assert a - 1 == k * (q - 1) + (k - 1);
    } else {
      assert a - 1 == k * q + (r - 1);
    }
  }

  /** A year has 366 days exactly when it is a leap year. */
  lemma {:induction false} YearLength(y: int)
    ensures DaysBeforeYear(y + 1) - DaysBeforeYear(y) == if IsLeapYear(y) then 366 else 365
  {
    DivStep(y, 4);
    DivStep(y, 100);
    DivStep(y, 400);
  }

  /** The first of the next month is DaysInMonth(y, m) days after the first
      of month m; December rolls over into January of the next year. */
  lemma {:induction false} MonthLength(y: int, m: int)
    requires 1 <= m <= 12
    ensures DayNumber(y, m + 1, 1) - DayNumber(y, m, 1) == DaysInMonth(y, m)
  {
    assert (m - 1) / 12 == 0 && (m - 1) % 12 + 1 == m;
    if m == 12 {
      assert m / 12 == 1 && m % 12 + 1 == 1;
      YearLength(y);
    } else {
      assert m / 12 == 0 && m % 12 + 1 == m + 1;
    }
  }

  /** A calendar month. */
  datatype YearMonth = YearMonth(year: int, month: int)
  {
    predicate Valid() { 1 <= month <= 12 }

    function Previous(): (p: YearMonth)
      requires Valid()
      ensures p.Valid()
      ensures DayNumber(p.year, p.month + 1, 1) == DayNumber(year, month, 1)
    {
      if month == 1 then YearMonth(year - 1, 12) else YearMonth(year, month - 1)
    }

    function Next(): (n: YearMonth)
      requires Valid()
      ensures n.Valid()
      ensures DayNumber(n.year, n.month, 1) == DayNumber(year, month + 1, 1)
    {
      if month == 12 then YearMonth(year + 1, 1) else YearMonth(year, month + 1)
    }

    /** The number of the first day of the month. */
    function FirstDay(): int
    {
      DayNumber(year, month, 1)
    }
  }

  /** Previous and Next undo each other. */
  lemma {:induction false} PreviousNext(ym: YearMonth)
    requires ym.Valid()
    ensures ym.Previous().Next() == ym && ym.Next().Previous() == ym
  {
  }

  /** A calendar date, as PHP's date() reports today. */
  datatype Date = Date(year: int, month: int, day: int)
  {
    predicate Valid() { 1 <= month <= 12 && 1 <= day <= DaysInMonth(year, month) }

    function Month(): YearMonth { YearMonth(year, month) }
  }

  /** Consecutive valid dates of one month have consecutive day numbers, and
      every day of month m lies before the first of month m + 1. */
  lemma {:induction false} DaysOfMonth(y: int, m: int, d: int)
    requires 1 <= m <= 12 && 1 <= d <= DaysInMonth(y, m)
    ensures DayNumber(y, m, d) == DayNumber(y, m, 1) + d - 1
    ensures DayNumber(y, m, d) < DayNumber(y, m + 1, 1)
  {
    MonthLength(y, m);
  }

  /** Day 0 of month 0 is what mktime makes of it: 30 November of the year before. */
  lemma {:induction false} MonthZeroDayZero(y: int)
    ensures DayNumber(y, 0, 0) == DayNumber(y - 1, 11, 30)
  {
    assert (0 - 1) / 12 == -1 && (0 - 1) % 12 + 1 == 12;
    assert (11 - 1) / 12 == 0 && (11 - 1) % 12 + 1 == 11;
  }
}
