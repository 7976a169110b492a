/** Dates of the Gregorian calendar and their day numbers; the leap years are those of
    RFC 3339, Appendix C. Day 1 is 0001-01-01, a Monday. */
module Calendar {
  datatype Date = Date(year: int, month: int, day: int)

  predicate Leap(y: int) {
    y % 4 == 0 && (y % 100 != 0 || y % 400 == 0)
  }

  function DaysInMonth(y: int, m: int): int {
    if m == 2 then (if Leap(y) then 29 else 28)
    else if m == 4 || m == 6 || m == 9 || m == 11 then 30
    else 31
  }

  predicate IsDate(d: Date) {
    d.year >= 1 && 1 <= d.month <= 12 && 1 <= d.day <= DaysInMonth(d.year, d.month)
  }

  /** Days before the first of January. */
  function BeforeYear(y: int): int {
    365 * (y - 1) + (y - 1) / 4 - (y - 1) / 100 + (y - 1) / 400
  }

  /** Days of the year before the first of the month. */
  function BeforeMonth(y: int, m: int): int
    requires 1 <= m <= 13
    decreases m
  {
    if m == 1 then 0 else BeforeMonth(y, m - 1) + DaysInMonth(y, m - 1)
  }

  function Ordinal(d: Date): int
    requires 1 <= d.month <= 12
  {
    BeforeYear(d.year) + BeforeMonth(d.year, d.month) + d.day
  }

  function YearFrom(n: int, y: int): (r: int)
    requires 1 <= y && BeforeYear(y) < n
    ensures y <= r && BeforeYear(r) < n <= BeforeYear(r + 1)
    decreases n - BeforeYear(y)
  {
    YearLength(y);
    if n <= BeforeYear(y + 1) then y else YearFrom(n, y + 1)
  }

  function MonthFrom(y: int, n: int, m: int): (r: int)
    requires 1 <= m <= 12 && BeforeMonth(y, m) < n <= BeforeMonth(y, 13)
    ensures m <= r <= 12 && BeforeMonth(y, r) < n <= BeforeMonth(y, r + 1)
    decreases 12 - m
  {
    if n <= BeforeMonth(y, m + 1) then m else MonthFrom(y, n, m + 1)
  }

  function FromOrdinal(n: int): (d: Date)
    requires n >= 1
    ensures IsDate(d) && Ordinal(d) == n
  {
    var y := YearFrom(n, 1);
    YearLength(y);
    var m := MonthFrom(y, n - BeforeYear(y), 1);
    Date(y, m, n - BeforeYear(y) - BeforeMonth(y, m))
  }

  lemma Fourths(y: int)
    ensures y / 4 - (y - 1) / 4 == if y % 4 == 0 then 1 else 0
  {
  }

  lemma Hundredths(y: int)
    ensures y / 100 - (y - 1) / 100 == if y % 100 == 0 then 1 else 0
  {
  }

  lemma FourHundredths(y: int)
    ensures y / 400 - (y - 1) / 400 == if y % 400 == 0 then 1 else 0
  {
  }

  /** A multiple of 400 is one of 100, and that one of 4. */
  lemma Multiples(y: int)
    ensures y % 400 == 0 ==> y % 100 == 0
    ensures y % 100 == 0 ==> y % 4 == 0
  {
  }

  lemma YearLength(y: int)
    ensures BeforeYear(y + 1) == BeforeYear(y) + BeforeMonth(y, 13)
    ensures BeforeMonth(y, 13) == if Leap(y) then 366 else 365
  {
    MonthsAdd(y);
    Fourths(y);
    Hundredths(y);
    FourHundredths(y);
    Multiples(y);
  }

  lemma MonthsAdd(y: int)
    ensures BeforeMonth(y, 13) == 337 + DaysInMonth(y, 2)
  {
    assert BeforeMonth(y, 4) == 62 + DaysInMonth(y, 2);
    assert BeforeMonth(y, 7) == BeforeMonth(y, 4) + 91;
    assert BeforeMonth(y, 10) == BeforeMonth(y, 7) + 92;
    assert BeforeMonth(y, 13) == BeforeMonth(y, 10) + 92;
  }

  lemma {:induction false} YearsGrow(a: int, b: int)
    requires a <= b
    ensures BeforeYear(b) - BeforeYear(a) >= 365 * (b - a)
    decreases b - a
  {
    if a < b {
      YearsGrow(a, b - 1);
      YearLength(b - 1);
    }
  }

  lemma {:induction false} MonthsGrow(y: int, a: int, b: int)
    requires 1 <= a <= b <= 13
    ensures BeforeMonth(y, b) - BeforeMonth(y, a) >= 28 * (b - a)
    decreases b - a
  {
    if a < b { MonthsGrow(y, a, b - 1); }
  }

  predicate Before(a: Date, b: Date) {
    a.year < b.year || (a.year == b.year && (a.month < b.month || (a.month == b.month && a.day < b.day)))
  }

  lemma DayOfYear(d: Date)
    requires IsDate(d)
    ensures BeforeYear(d.year) < Ordinal(d) <= BeforeYear(d.year + 1)
    ensures Ordinal(d) <= BeforeYear(d.year) + BeforeMonth(d.year, d.month + 1)
  {
    MonthsGrow(d.year, 1, d.month);
    MonthsGrow(d.year, d.month + 1, 13);
    YearLength(d.year);
  }

  lemma LaterYear(a: Date, b: Date)
    requires IsDate(a) && IsDate(b) && a.year < b.year
    ensures Ordinal(a) < Ordinal(b)
  {
    DayOfYear(a);
    DayOfYear(b);
    YearsGrow(a.year + 1, b.year);
  }

  lemma LaterMonth(a: Date, b: Date)
    requires IsDate(a) && IsDate(b) && a.year == b.year && a.month < b.month
    ensures Ordinal(a) < Ordinal(b)
  {
    DayOfYear(a);
    MonthsGrow(a.year, a.month + 1, b.month);
  }

  lemma LaterIsGreater(a: Date, b: Date)
    requires IsDate(a) && IsDate(b) && Before(a, b)
    ensures Ordinal(a) < Ordinal(b)
  {
    if a.year < b.year {
      LaterYear(a, b);
    } else if a.month < b.month {
      LaterMonth(a, b);
    }
  }

  /** Day numbers follow the calendar, and so name each date. */
  lemma OrdinalOrders(a: Date, b: Date)
    requires IsDate(a) && IsDate(b)
    ensures Before(a, b) <==> Ordinal(a) < Ordinal(b)
    ensures a == b <==> Ordinal(a) == Ordinal(b)
  {
    if Before(a, b) { LaterIsGreater(a, b); }
    if Before(b, a) { LaterIsGreater(b, a); }
  }

  /** Dates and day numbers undo each other. */
  lemma DateOfOrdinal(d: Date)
    requires IsDate(d)
    ensures Ordinal(d) >= 1 && FromOrdinal(Ordinal(d)) == d
  {
    DayOfYear(d);
    YearsGrow(1, d.year);
    OrdinalOrders(FromOrdinal(Ordinal(d)), d);
  }

  /** Monday is 0. */
  function Weekday(d: Date): int
    requires 1 <= d.month <= 12
  {
    (Ordinal(d) + 6) % 7
  }

  predicate CanAdd(d: Date, days: int)
    requires 1 <= d.month <= 12
  {
    Ordinal(d) + days >= 1
  }

  function AddDays(d: Date, days: int): Date
    requires 1 <= d.month <= 12 && CanAdd(d, days)
  {
    FromOrdinal(Ordinal(d) + days)
  }
}
