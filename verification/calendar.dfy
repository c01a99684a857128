/** The UTC calendar date of a Unix timestamp, as used by the date partition of object keys.

    Dates are reached by counting days from 1970-01-01 with the Gregorian month and
    leap-year rules; `DayNumber` is the usual closed form, and the two are proved inverse. */
module Calendar {

  datatype Date = Date(year: int, month: int, day: int)

  predicate IsLeap(year: int) {
    year % 4 == 0 && (year % 100 != 0 || year % 400 == 0)
  }

  function DaysInMonth(year: int, month: int): (n: int)
    ensures 28 <= n <= 31
  {
    if month == 2 then (if IsLeap(year) then 29 else 28)
    else if month == 4 || month == 6 || month == 9 || month == 11 then 30
    else 31
  }

  predicate ValidDate(date: Date) {
    1 <= date.month <= 12 && 1 <= date.day <= DaysInMonth(date.year, date.month)
  }

  const EPOCH := Date(1970, 1, 1)

  function NextDay(date: Date): (next: Date)
    ensures ValidDate(date) ==> ValidDate(next)
  {
    if date.day < DaysInMonth(date.year, date.month) then date.(day := date.day + 1)
    else if date.month < 12 then Date(date.year, date.month + 1, 1)
    else Date(date.year + 1, 1, 1)
  }

  function PreviousDay(date: Date): (previous: Date)
    requires ValidDate(date)
    ensures ValidDate(previous) && NextDay(previous) == date
  {
    if date.day > 1 then date.(day := date.day - 1)
    else if date.month > 1 then Date(date.year, date.month - 1, DaysInMonth(date.year, date.month - 1))
    else Date(date.year - 1, 12, 31)
  }

  /** The date that lies `n` days after (for negative `n`: before) 1970-01-01. */
  function DateOfDay(n: int): (date: Date)
    ensures ValidDate(date)
    decreases if n < 0 then -n else n
  {
    if n == 0 then EPOCH
    else if n > 0 then NextDay(DateOfDay(n - 1))
    else PreviousDay(DateOfDay(n + 1))
  }

  const NANOS_PER_DAY: int := 86_400_000_000_000

  /** Days since the epoch; the division floors, so instants before 1970 fall on earlier days. */
  function DayOfInstant(unixNano: int): int {
    unixNano / NANOS_PER_DAY
  }

  function DateOfInstant(unixNano: int): Date {
    DateOfDay(DayOfInstant(unixNano))
  }

  // ---- The closed form ----

  /** Days from the first of January to the first of the month. */
  function DaysBeforeMonth(year: int, month: int): (n: int)
    requires 1 <= month <= 12
    ensures n >= 0
  {
    [0, 31, 59, 90, 120, 151, 181, 212, 243, 273, 304, 334][month - 1]
    + if month > 2 && IsLeap(year) then 1 else 0
  }

  function DaysBeforeYear(year: int): int {
    365 * (year - 1) + (year - 1) / 4 - (year - 1) / 100 + (year - 1) / 400
  }

  const EPOCH_DAYS: int := 719_162

  function DayNumber(date: Date): int
    requires ValidDate(date)
  {
    DaysBeforeYear(date.year) + DaysBeforeMonth(date.year, date.month) + date.day - 1 - EPOCH_DAYS
  }

  lemma DaysInYear(year: int)
    ensures DaysBeforeYear(year + 1) == DaysBeforeYear(year) + if IsLeap(year) then 366 else 365
  {
    var quads, centuries := (year - 1) / 4, (year - 1) / 100;
    assert year / 4 == quads + if year % 4 == 0 then 1 else 0;
    assert year / 100 == centuries + if year % 100 == 0 then 1 else 0;
  }

  lemma NextDayNumber(date: Date)
    requires ValidDate(date)
    ensures DayNumber(NextDay(date)) == DayNumber(date) + 1
  {
    if date.day == DaysInMonth(date.year, date.month) && date.month == 12 {
      DaysInYear(date.year);
    }
  }

  /** The counted date of day `n` is the one whose closed-form day number is `n`. */
  lemma {:induction false} DateOfDayRoundTrip(n: int)
    ensures DayNumber(DateOfDay(n)) == n
    decreases if n < 0 then -n else n
  {
    if n > 0 {
      DateOfDayRoundTrip(n - 1);
      NextDayNumber(DateOfDay(n - 1));
    } else if n < 0 {
      DateOfDayRoundTrip(n + 1);
      NextDayNumber(DateOfDay(n));
    } else {
      assert DaysBeforeMonth(1970, 1) == 0;
    }
  }

  lemma {:induction false} YearsApart(year: int, year': int)
    requires year < year'
    ensures DaysBeforeYear(year) + (if IsLeap(year) then 366 else 365) <= DaysBeforeYear(year')
    decreases year' - year
  {
    DaysInYear(year' - 1);
    if year < year' - 1 {
      YearsApart(year, year' - 1);
    }
  }

  lemma WithinYear(date: Date)
    requires ValidDate(date)
    ensures 1 <= DaysBeforeMonth(date.year, date.month) + date.day <= if IsLeap(date.year) then 366 else 365
  {
  }

  /** Different dates have different day numbers. */
  lemma DayNumberInjective(a: Date, b: Date)
    requires ValidDate(a) && ValidDate(b) && DayNumber(a) == DayNumber(b)
    ensures a == b
  {
    WithinYear(a);
    WithinYear(b);
    if a.year < b.year {
      YearsApart(a.year, b.year);
    } else if b.year < a.year {
      YearsApart(b.year, a.year);
    }
  }

  /** The instants of a UTC day: those from its midnight on, for 86,400 seconds. */
  lemma InstantOnDate(date: Date, nanos: int)
    requires ValidDate(date) && 0 <= nanos < 86_400_000_000_000
    ensures DateOfInstant(DayNumber(date) * 86_400_000_000_000 + nanos) == date
  {
    var n := DayNumber(date);
    assert DayOfInstant(n * 86_400_000_000_000 + nanos) == n;
    DateOfDayRoundTrip(n);
    DayNumberInjective(DateOfDay(n), date);
  }

  // ---- Order ----

  /** Year first, then month, then day. */
  predicate Before(a: Date, b: Date) {
    || a.year < b.year
    || (a.year == b.year && a.month < b.month)
    || (a.year == b.year && a.month == b.month && a.day < b.day)
  }

  lemma NextDayIsLater(date: Date)
    requires ValidDate(date)
    ensures Before(date, NextDay(date))
  {
  }

  lemma BeforeTransitive(a: Date, b: Date, c: Date)
    requires Before(a, b) && Before(b, c)
    ensures Before(a, c)
  {
  }

  lemma NextDate(n: int)
    ensures DateOfDay(n) == NextDay(DateOfDay(n - 1))
  {
  }

  lemma {:induction false} DateMonotone(m: int, n: int)
    requires m < n
    ensures Before(DateOfDay(m), DateOfDay(n))
    decreases n - m
  {
    NextDate(n);
    NextDayIsLater(DateOfDay(n - 1));
    if m < n - 1 {
      DateMonotone(m, n - 1);
      BeforeTransitive(DateOfDay(m), DateOfDay(n - 1), DateOfDay(n));
    }
  }

  /** Every year has at least 365 days, which bounds the year that `n` days can reach. */
  lemma {:induction false} YearBound(n: nat)
    ensures var d := DateOfDay(n);
            1970 <= d.year && 365 * (d.year - 1970) + DaysBeforeMonth(d.year, d.month) + d.day - 1 <= n
    ensures 365 * (DateOfDay(n).year - 1970) <= n
  {
    if n > 0 {
      YearBound(n - 1);
      var d := DateOfDay(n - 1);
      if d.day == DaysInMonth(d.year, d.month) && d.month == 12 {
        DaysInYear(d.year);
      }
    }
  }
}
