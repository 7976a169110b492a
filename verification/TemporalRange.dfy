/** Date phrases resolved to half-open ranges. */
module TemporalRange {
  import opened Calendar

  datatype Period = Week | Month | Quarter | Year

  datatype Direction = Past | Last | Next

  datatype Unit = Days | Weeks

  /** A phrase as recognised; `Rolling` is "past/last/next N days|weeks". */
  datatype Phrase =
    | Today
    | Yesterday
    | Tomorrow
    | This(period: Period)
    | Previous(period: Period)
    | Rolling(direction: Direction, count: int, unit: Unit)
    | Unknown

  /** The range [start, end), no range, or a date outside the years 1 to 9999. */
  datatype Answer = Range(start: Date, end: Date) | NoRange | OutOfCalendar

  const LAST_DAY := Date(9999, 12, 31)

  function AddMonths(first: Date, n: int): Date {
    var m := first.year * 12 + (first.month - 1) + n;
    Date(m / 12, m % 12 + 1, 1)
  }

  function QuarterStart(d: Date): Date {
    Date(d.year, ((d.month - 1) / 3) * 3 + 1, 1)
  }

  lemma Early(d: Date)
    requires IsDate(d)
    ensures Ordinal(d) >= 1 && (d.year >= 2 ==> Ordinal(d) > 365)
  {
    DayOfYear(d);
    YearsGrow(1, d.year);
    if d.year >= 2 { YearsGrow(2, d.year); }
  }

  lemma WeekdayBefore(n: int)
    ensures 0 <= (n + 6) % 7 <= 6 && (n >= 1 ==> n - (n + 6) % 7 >= 1)
  {
  }

  function Monday(d: Date): (m: Date)
    requires IsDate(d)
    ensures IsDate(m) && Ordinal(d) - 6 <= Ordinal(m) <= Ordinal(d)
  {
    Early(d);
    WeekdayBefore(Ordinal(d));
    AddDays(d, -Weekday(d))
  }

  function ThisRange(p: Period, today: Date): Answer
    requires IsDate(today)
  {
    match p
    case Week => Range(Monday(today), AddDays(Monday(today), 7))
    case Month => Range(today.(day := 1), AddMonths(today.(day := 1), 1))
    case Quarter => Range(QuarterStart(today), AddMonths(QuarterStart(today), 3))
    case Year => Range(Date(today.year, 1, 1), Date(today.year + 1, 1, 1))
  }

  function PreviousRange(p: Period, today: Date): Answer
    requires IsDate(today) && today.year >= 2
  {
    match p
    case Week =>
      Early(today);
      Range(AddDays(Monday(today), -7), Monday(today))
    case Month => Range(AddMonths(today.(day := 1), -1), today.(day := 1))
    case Quarter => Range(AddMonths(QuarterStart(today), -3), QuarterStart(today))
    case Year => Range(Date(today.year - 1, 1, 1), Date(today.year, 1, 1))
  }

  function Window(start: int, end: int): Answer
    requires start <= end
  {
    if start >= 1 && 1 <= end <= Ordinal(LAST_DAY) then Range(FromOrdinal(start), FromOrdinal(end)) else OutOfCalendar
  }

  function SpanDays(count: int, unit: Unit): int {
    count * if unit == Weeks then 7 else 1
  }

  /** Every named range is worked out before the phrase is looked at, so in the first and the
      last year there are none. */
  function Resolve(phrase: Phrase, today: Date): Answer
    requires IsDate(today)
  {
    if !(2 <= today.year <= 9998) then OutOfCalendar
    else
      Early(today);
      match phrase
      case Today => Range(today, AddDays(today, 1))
      case Yesterday => Range(AddDays(today, -1), today)
      case Tomorrow => Range(AddDays(today, 1), AddDays(today, 2))
      case This(p) => ThisRange(p, today)
      case Previous(p) => PreviousRange(p, today)
      case Rolling(direction, count, unit) =>
        if count <= 0 then NoRange
        else if direction == Next then Window(Ordinal(today), Ordinal(today) + SpanDays(count, unit))
        else Window(Ordinal(today) - SpanDays(count, unit), Ordinal(today) + 1)
      case Unknown => NoRange
  }

  predicate In(r: Answer, d: Date) {
    r.Range? && !Before(d, r.start) && Before(d, r.end)
  }

  // --- Shifting by months ---

  /** The months of all years in one line. */
  function MonthIndex(d: Date): int {
    d.year * 12 + d.month - 1
  }

  lemma AddMonthsIs(first: Date, n: int)
    ensures var r := AddMonths(first, n); MonthIndex(r) == MonthIndex(first) + n && 1 <= r.month <= 12 && r.day == 1
  {
  }

  lemma SameMonthIndex(a: Date, b: Date)
    requires 1 <= a.month <= 12 && 1 <= b.month <= 12 && MonthIndex(a) == MonthIndex(b)
    ensures a.year == b.year && a.month == b.month
  {
  }

  /** Shifts compose and can be undone, and go forward exactly when they are positive. */
  lemma AddMonthsComposes(first: Date, a: int, b: int)
    requires 1 <= first.month <= 12 && first.day == 1
    ensures AddMonths(AddMonths(first, a), b) == AddMonths(first, a + b)
    ensures AddMonths(first, 0) == first
    ensures Before(AddMonths(first, a), AddMonths(first, b)) <==> a < b
  {
    AddMonthsIs(first, a);
    AddMonthsIs(first, b);
    AddMonthsIs(AddMonths(first, a), b);
    AddMonthsIs(first, a + b);
    AddMonthsIs(first, 0);
    SameMonthIndex(AddMonths(AddMonths(first, a), b), AddMonths(first, a + b));
    SameMonthIndex(AddMonths(first, 0), first);
  }

  // --- Named periods ---

  /** Weeks run from Monday and are counted from day 1. */
  function WeekNumber(d: Date): int
    requires IsDate(d)
  {
    (Ordinal(d) - 1) / 7
  }

  function QuarterOf(d: Date): int {
    (d.month - 1) / 3
  }

  predicate SamePeriod(p: Period, a: Date, b: Date)
    requires IsDate(a) && IsDate(b)
  {
    match p
    case Week => WeekNumber(a) == WeekNumber(b)
    case Month => a.year == b.year && a.month == b.month
    case Quarter => a.year == b.year && QuarterOf(a) == QuarterOf(b)
    case Year => a.year == b.year
  }

  lemma InOrdinals(r: Answer, d: Date)
    requires r.Range? && IsDate(d) && IsDate(r.start) && IsDate(r.end)
    ensures In(r, d) <==> Ordinal(r.start) <= Ordinal(d) < Ordinal(r.end)
  {
    OrdinalOrders(d, r.start);
    OrdinalOrders(d, r.end);
  }

  lemma MondayNumber(n: int)
    ensures n - (n + 6) % 7 == 7 * ((n - 1) / 7) + 1
  {
  }

  lemma MondayIs(d: Date)
    requires IsDate(d)
    ensures Ordinal(Monday(d)) == Ordinal(d) - Weekday(d)
  {
    Early(d);
    WeekdayBefore(Ordinal(d));
  }

  lemma MondayOf(d: Date)
    requires IsDate(d)
    ensures Ordinal(Monday(d)) == 7 * WeekNumber(d) + 1
  {
    var n := Ordinal(d);
    MondayIs(d);
    MondayNumber(n);
  }

  lemma SameWeek(n: int, w: int)
    ensures 7 * w + 1 <= n < 7 * w + 8 <==> (n - 1) / 7 == w
  {
  }

  lemma WeekCovers(today: Date, d: Date)
    requires IsDate(today) && IsDate(d)
    ensures In(ThisRange(Week, today), d) <==> WeekNumber(today) == WeekNumber(d)
  {
    MondayOf(today);
    InOrdinals(ThisRange(Week, today), d);
    SameWeek(Ordinal(d), WeekNumber(today));
  }

  lemma MonthCovers(today: Date, d: Date)
    requires 1 <= today.month <= 12 && 1 <= d.month <= 12 && today.day >= 1 && d.day >= 1
    ensures var first := today.(day := 1);
            !Before(d, first) && Before(d, AddMonths(first, 1)) <==> today.year == d.year && today.month == d.month
  {
    AddMonthsIs(today.(day := 1), 1);
  }

  lemma QuarterCovers(today: Date, d: Date)
    requires 1 <= today.month <= 12 && 1 <= d.month <= 12 && today.day >= 1 && d.day >= 1
    ensures var first := QuarterStart(today);
            !Before(d, first) && Before(d, AddMonths(first, 3)) <==>
            today.year == d.year && QuarterOf(today) == QuarterOf(d)
  {
    AddMonthsIs(QuarterStart(today), 3);
  }

  /** "this P" holds exactly the dates in one period with today: it holds today, and the
      weeks, months, quarters and years each tile the calendar. */
  lemma ThisCovers(p: Period, today: Date, d: Date)
    requires IsDate(today) && IsDate(d)
    ensures In(ThisRange(p, today), d) <==> SamePeriod(p, today, d)
    ensures In(ThisRange(p, today), today)
  {
    match p
    case Week =>
      WeekCovers(today, d);
      WeekCovers(today, today);
    case Month =>
      MonthCovers(today, d);
      MonthCovers(today, today);
    case Quarter =>
      QuarterCovers(today, d);
      QuarterCovers(today, today);
    case Year =>
  }

  /** Against the first of a month, dates compare by their months. */
  lemma ByMonth(d: Date, first: Date)
    requires 1 <= d.month <= 12 && d.day >= 1 && 1 <= first.month <= 12 && first.day == 1
    ensures Before(d, first) <==> MonthIndex(d) < MonthIndex(first)
  {
  }

  lemma QuarterStartIs(d: Date, q: Date)
    requires 1 <= d.month <= 12 && 1 <= q.month <= 12 && q.day == 1 && (q.month - 1) % 3 == 0
    requires MonthIndex(q) <= MonthIndex(d) < MonthIndex(q) + 3
    ensures QuarterStart(d) == q
  {
  }

  lemma QuarterStartsOnQuarter(d: Date)
    requires 1 <= d.month <= 12
    ensures (QuarterStart(d).month - 1) % 3 == 0 && 1 <= QuarterStart(d).month <= 10
  {
  }

  lemma BackAQuarter(q: Date)
    requires 1 <= q.month <= 12 && q.day == 1 && (q.month - 1) % 3 == 0
    ensures (AddMonths(q, -3).month - 1) % 3 == 0
  {
  }

  lemma MonthBefore(today: Date, d: Date)
    requires IsDate(today) && IsDate(d) && today.year >= 2 && In(PreviousRange(Month, today), d)
    ensures ThisRange(Month, d) == PreviousRange(Month, today)
  {
    var first := today.(day := 1);
    var last := AddMonths(first, -1);
    AddMonthsIs(first, -1);
    AddMonthsComposes(first, -1, 1);
    ByMonth(d, first);
    ByMonth(d, last);
    SameMonthIndex(d, last);
  }

  lemma QuarterBefore(today: Date, d: Date)
    requires IsDate(today) && IsDate(d) && today.year >= 2 && In(PreviousRange(Quarter, today), d)
    ensures ThisRange(Quarter, d) == PreviousRange(Quarter, today)
  {
    var first := QuarterStart(today);
    var last := AddMonths(first, -3);
    QuarterStartsOnQuarter(today);
    AddMonthsIs(first, -3);
    AddMonthsComposes(first, -3, 3);
    BackAQuarter(first);
    ByMonth(d, first);
    ByMonth(d, last);
    QuarterStartIs(d, last);
  }

  lemma ThisWeek(d: Date, w: int)
    requires IsDate(d) && w == WeekNumber(d)
    ensures w >= 0 && ThisRange(Week, d) == Range(FromOrdinal(7 * w + 1), FromOrdinal(7 * w + 8))
  {
    Early(d);
    MondayOf(d);
    WeekFrom(Monday(d), w);
  }

  lemma WeekFrom(monday: Date, w: int)
    requires IsDate(monday) && Ordinal(monday) == 7 * w + 1 && w >= 0
    ensures monday == FromOrdinal(7 * w + 1) && AddDays(monday, 7) == FromOrdinal(7 * w + 8)
  {
    DateOfOrdinal(monday);
  }

  lemma LastWeek(today: Date, w: int)
    requires IsDate(today) && today.year >= 2 && w == WeekNumber(today) - 1
    ensures w >= 0 && PreviousRange(Week, today) == Range(FromOrdinal(7 * w + 1), FromOrdinal(7 * w + 8))
  {
    Early(today);
    MondayOf(today);
    DateOfOrdinal(Monday(today));
  }

  lemma WeekBefore(today: Date, d: Date)
    requires IsDate(today) && IsDate(d) && today.year >= 2 && In(PreviousRange(Week, today), d)
    ensures ThisRange(Week, d) == PreviousRange(Week, today)
  {
    var w := WeekNumber(today) - 1;
    LastWeek(today, w);
    InOrdinals(PreviousRange(Week, today), d);
    SameWeek(Ordinal(d), w);
    ThisWeek(d, w);
  }

  /** "last P" ends where "this P" starts, and is the whole of the period before: what
      "this P" is on any of its days. */
  lemma PreviousIsThePeriodBefore(p: Period, today: Date, d: Date)
    requires IsDate(today) && IsDate(d) && today.year >= 2
    ensures PreviousRange(p, today).end == ThisRange(p, today).start
    ensures In(PreviousRange(p, today), d) ==> ThisRange(p, d) == PreviousRange(p, today)
  {
    if In(PreviousRange(p, today), d) {
      match p
      case Week => WeekBefore(today, d);
      case Month => MonthBefore(today, d);
      case Quarter => QuarterBefore(today, d);
      case Year =>
    }
  }

  // --- Every phrase ---

  ghost predicate InCalendar(r: Answer) {
    r.Range? && IsDate(r.start) && IsDate(r.end) && Ordinal(r.start) < Ordinal(r.end) <= Ordinal(LAST_DAY)
  }

  lemma BeforeLastYear(d: Date)
    requires IsDate(d) && d.year <= 9998
    ensures Ordinal(d) + 300 <= Ordinal(LAST_DAY)
  {
    DayOfYear(d);
    YearsGrow(d.year + 1, 9999);
    assert Ordinal(LAST_DAY) == BeforeYear(9999) + BeforeMonth(9999, 12) + 31;
    MonthsGrow(9999, 1, 12);
  }

  lemma DatesInCalendar(r: Answer)
    requires r.Range? && IsDate(r.start) && IsDate(r.end) && Before(r.start, r.end) && r.end.year <= 9999
    ensures InCalendar(r)
  {
    OrdinalOrders(r.start, r.end);
    OrdinalOrders(LAST_DAY, r.end);
  }

  lemma ThisInCalendar(p: Period, today: Date)
    requires IsDate(today) && 2 <= today.year <= 9998
    ensures InCalendar(ThisRange(p, today))
  {
    var r := ThisRange(p, today);
    match p
    case Week => BeforeLastYear(today);
    case Month =>
      AddMonthsIs(r.start, 1);
      DatesInCalendar(r);
    case Quarter =>
      QuarterStartsOnQuarter(today);
      AddMonthsIs(r.start, 3);
      DatesInCalendar(r);
    case Year => DatesInCalendar(r);
  }

  lemma PreviousInCalendar(p: Period, today: Date)
    requires IsDate(today) && 2 <= today.year <= 9998
    ensures InCalendar(PreviousRange(p, today))
  {
    var r := PreviousRange(p, today);
    match p
    case Week => BeforeLastYear(today);
    case Month =>
      AddMonthsIs(r.end, -1);
      DatesInCalendar(r);
    case Quarter =>
      QuarterStartsOnQuarter(today);
      AddMonthsIs(r.end, -3);
      DatesInCalendar(r);
    case Year => DatesInCalendar(r);
  }

  /** A range is never empty, and lies in the calendar; named phrases always have one unless
      today is in the first or the last year. */
  lemma RangesAreNotEmpty(phrase: Phrase, today: Date)
    requires IsDate(today)
    ensures Resolve(phrase, today).Range? ==> InCalendar(Resolve(phrase, today))
    ensures 2 <= today.year <= 9998 && !phrase.Rolling? && !phrase.Unknown? ==> Resolve(phrase, today).Range?
  {
    if 2 <= today.year <= 9998 {
      match phrase
      case This(p) => ThisInCalendar(p, today);
      case Previous(p) => PreviousInCalendar(p, today);
      case _ => BeforeLastYear(today);
    }
  }

  /** Where a period stands in the line of its kind. */
  function PeriodIndex(p: Period, d: Date): int
    requires IsDate(d)
  {
    match p
    case Week => WeekNumber(d)
    case Month => MonthIndex(d)
    case Quarter => d.year * 4 + QuarterOf(d)
    case Year => d.year
  }

  lemma SamePeriodIff(p: Period, a: Date, b: Date)
    requires IsDate(a) && IsDate(b)
    ensures SamePeriod(p, a, b) <==> PeriodIndex(p, a) == PeriodIndex(p, b)
  {
  }

  lemma LastWeekCovers(today: Date, d: Date)
    requires IsDate(today) && IsDate(d) && today.year >= 2
    ensures In(PreviousRange(Week, today), d) <==> WeekNumber(d) == WeekNumber(today) - 1
  {
    LastWeek(today, WeekNumber(today) - 1);
    InOrdinals(PreviousRange(Week, today), d);
    SameWeek(Ordinal(d), WeekNumber(today) - 1);
  }

  lemma LastMonthCovers(today: Date, d: Date)
    requires IsDate(today) && IsDate(d) && today.year >= 2
    ensures In(PreviousRange(Month, today), d) <==> MonthIndex(d) == MonthIndex(today) - 1
  {
    var first := today.(day := 1);
    AddMonthsIs(first, -1);
    ByMonth(d, first);
    ByMonth(d, AddMonths(first, -1));
  }

  lemma QuarterIndex(d: Date)
    requires 1 <= d.month <= 12
    ensures MonthIndex(QuarterStart(d)) == 3 * (d.year * 4 + QuarterOf(d))
    ensures MonthIndex(d) / 3 == d.year * 4 + QuarterOf(d)
  {
  }

  lemma LastQuarterCovers(today: Date, d: Date)
    requires IsDate(today) && IsDate(d) && today.year >= 2
    ensures In(PreviousRange(Quarter, today), d) <==> PeriodIndex(Quarter, d) == PeriodIndex(Quarter, today) - 1
  {
    var first := QuarterStart(today);
    QuarterStartsOnQuarter(today);
    AddMonthsIs(first, -3);
    ByMonth(d, first);
    ByMonth(d, AddMonths(first, -3));
    QuarterIndex(today);
    QuarterIndex(d);
  }

  lemma PreviousCovers(p: Period, today: Date, d: Date)
    requires IsDate(today) && IsDate(d) && today.year >= 2
    ensures In(PreviousRange(p, today), d) <==> PeriodIndex(p, d) == PeriodIndex(p, today) - 1
  {
    match p
    case Week => LastWeekCovers(today, d);
    case Month => LastMonthCovers(today, d);
    case Quarter => LastQuarterCovers(today, d);
    case Year =>
  }

  /** What each named phrase covers: the one day, the days in one period with today, or the days
      of the period before. */
  lemma PhraseCovers(phrase: Phrase, today: Date, d: Date)
    requires IsDate(today) && IsDate(d) && 2 <= today.year <= 9998
    ensures var r, days := Resolve(phrase, today), Ordinal(d) - Ordinal(today);
            match phrase
            case Today => In(r, d) <==> days == 0
            case Yesterday => In(r, d) <==> days == -1
            case Tomorrow => In(r, d) <==> days == 1
            case This(p) => In(r, d) <==> PeriodIndex(p, d) == PeriodIndex(p, today)
            case Previous(p) => In(r, d) <==> PeriodIndex(p, d) == PeriodIndex(p, today) - 1
            case Rolling(_, _, _) => true
            case Unknown => r == NoRange
  {
    match phrase
    case This(p) =>
      ThisCovers(p, today, d);
      SamePeriodIff(p, today, d);
    case Previous(p) => PreviousCovers(p, today, d);
    case Rolling(_, _, _) =>
    case Unknown =>
    case _ =>
      RangesAreNotEmpty(phrase, today);
      Early(today);
      InOrdinals(Resolve(phrase, today), d);
  }

  /** The window's dates have day numbers in the calendar. */
  predicate Fits(direction: Direction, span: int, today: int) {
    if direction == Next then today + span <= Ordinal(LAST_DAY) else today - span >= 1
  }

  /** A rolling window takes in today and the given number of days or weeks before or after
      it, and there is one exactly when the number is positive and the window fits. */
  lemma RollingCovers(direction: Direction, count: int, unit: Unit, today: Date, d: Date)
    requires IsDate(today) && IsDate(d) && 2 <= today.year <= 9998
    ensures var r, span := Resolve(Rolling(direction, count, unit), today), SpanDays(count, unit);
            && span == count * (if unit == Weeks then 7 else 1)
            && (r.NoRange? <==> count <= 0)
            && (r.Range? <==> count > 0 && Fits(direction, span, Ordinal(today)))
            && (r.Range? && direction == Next ==> (In(r, d) <==> 0 <= Ordinal(d) - Ordinal(today) < span))
            && (r.Range? && direction != Next ==> (In(r, d) <==> -span <= Ordinal(d) - Ordinal(today) <= 0))
  {
    var r := Resolve(Rolling(direction, count, unit), today);
    BeforeLastYear(today);
    Early(today);
    if r.Range? { InOrdinals(r, d); }
  }

  /** In the first and the last year no phrase has a range. */
  lemma NoRangesAtTheEnds(phrase: Phrase, today: Date)
    requires IsDate(today)
    ensures today.year < 2 || today.year > 9998 ==> Resolve(phrase, today) == OutOfCalendar
  {
  }
}
