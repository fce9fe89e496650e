/** Python's `date`: the days of the years 1 to 9999, in order, and the operations the pipeline uses on them. */
module Calendar {
  import opened Wrappers

  datatype CalendarDate = CalendarDate(year: int, month: int, day: int)

  predicate LeapYear(year: int) {
    year % 4 == 0 && (year % 100 != 0 || year % 400 == 0)
  }

  function DaysIn(year: int, month: int): int {
    if month == 2 then if LeapYear(year) then 29 else 28
    else if month == 4 || month == 6 || month == 9 || month == 11 then 30
    else 31
  }

  predicate IsDate(d: CalendarDate) {
    1 <= d.year <= 9999 && 1 <= d.month <= 12 && 1 <= d.day <= DaysIn(d.year, d.month)
  }

  type Date = d: CalendarDate | IsDate(d) witness CalendarDate(1, 1, 1)

  const FIRST_DATE: Date := CalendarDate(1, 1, 1)
  const LAST_DATE: Date := CalendarDate(9999, 12, 31)

  predicate AtMost(a: Date, b: Date) {
    a.year < b.year || (a.year == b.year && (a.month < b.month || (a.month == b.month && a.day <= b.day)))
  }

  predicate Before(a: Date, b: Date) {
    AtMost(a, b) && a != b
  }

  /** `d + timedelta(days=1)`, which fails on the last date. */
  function NextDay(d: Date): Option<Date> {
    if d.day < DaysIn(d.year, d.month) then Some(CalendarDate(d.year, d.month, d.day + 1))
    else if d.month < 12 then Some(CalendarDate(d.year, d.month + 1, 1))
    else if d.year < 9999 then Some(CalendarDate(d.year + 1, 1, 1))
    else None
  }

  /** `d - timedelta(days=1)`, which fails on the first date. */
  function DayBefore(d: Date): Option<Date> {
    if d.day > 1 then Some(CalendarDate(d.year, d.month, d.day - 1))
    else if d.month > 1 then Some(CalendarDate(d.year, d.month - 1, DaysIn(d.year, d.month - 1)))
    else if d.year > 1 then Some(CalendarDate(d.year - 1, 12, 31))
    else None
  }

  /** The next day is the least later one. */
  lemma NextDayIsNext(d: Date, e: Date)
    ensures NextDay(d) == None <==> d == LAST_DATE
    ensures Before(d, e) <==> NextDay(d).Some? && AtMost(NextDay(d).value, e)
  {
  }

  /*** The Gregorian count of days ***/

  /** The days of a common year before each month. */
  const DAYS_BEFORE_MONTH: seq<int> := [0, 31, 59, 90, 120, 151, 181, 212, 243, 273, 304, 334]

  /** `date.toordinal()`: the proleptic Gregorian count, with a leap day in every fourth year but three of four centuries. */
  function Ordinal(d: Date): int {
    var y := d.year - 1;
    365 * y + y / 4 - y / 100 + y / 400
    + DAYS_BEFORE_MONTH[d.month - 1]
    + (if d.month > 2 && (d.year % 400 == 0 || (d.year % 4 == 0 && d.year % 100 != 0)) then 1 else 0)
    + d.day
  }

  lemma LeapDaysStep(year: int)
    ensures year / 4 - (year - 1) / 4 == if year % 4 == 0 then 1 else 0
    ensures year / 100 - (year - 1) / 100 == if year % 100 == 0 then 1 else 0
    ensures year / 400 - (year - 1) / 400 == if year % 400 == 0 then 1 else 0
  {
  }

  lemma CenturiesAreFourths(year: int)
    ensures (year % 100 == 0 ==> year % 4 == 0) && (year % 400 == 0 ==> year % 100 == 0)
  {
  }

  /** A year adds its days to the count. */
  lemma YearsAddUp(year: int)
    ensures var y := year - 1;
            (365 * year + year / 4 - year / 100 + year / 400) - (365 * y + y / 4 - y / 100 + y / 400) == if LeapYear(year) then 366 else 365
  {
    LeapDaysStep(year);
    CenturiesAreFourths(year);
  }

  /** Within a year, the days before each month are those of the months before it. */
  lemma MonthsAddUp(year: int, month: int)
    requires 1 <= month < 12
    ensures DAYS_BEFORE_MONTH[month] + (if month + 1 > 2 && LeapYear(year) then 1 else 0)
         == DAYS_BEFORE_MONTH[month - 1] + (if month > 2 && LeapYear(year) then 1 else 0) + DaysIn(year, month)
  {
  }

  lemma NextMonthIsCounted(d: Date)
    requires d.month < 12 && d.day == DaysIn(d.year, d.month)
    ensures Ordinal(CalendarDate(d.year, d.month + 1, 1)) == Ordinal(d) + 1
  {
    MonthsAddUp(d.year, d.month);
  }

  lemma NextYearIsCounted(d: Date)
    requires d.month == 12 && d.day == 31 && d.year < 9999
    ensures Ordinal(CalendarDate(d.year + 1, 1, 1)) == Ordinal(d) + 1
  {
    YearsAddUp(d.year);
  }

  /** The first date is day 1, and the next day is the next in the count. */
  lemma NextDayIsCounted(d: Date)
    ensures Ordinal(FIRST_DATE) == 1
    ensures NextDay(d).Some? ==> Ordinal(NextDay(d).value) == Ordinal(d) + 1
  {
    if d.day == DaysIn(d.year, d.month) {
      if d.month < 12 {
        NextMonthIsCounted(d);
      } else if d.year < 9999 {
        NextYearIsCounted(d);
      }
    }
  }

  function MonthStart(d: Date): Date {
    CalendarDate(d.year, d.month, 1)
  }

  /** `previous_month_start`, which fails in the first month of all. */
  function PreviousMonthStart(d: Date): Option<Date> {
    match DayBefore(MonthStart(d))
    case None => None
    case Some(e) => Some(MonthStart(e))
  }

  function MonthNumber(d: Date): int {
    12 * d.year + d.month
  }

  /** A month's values are carried by exactly the days of the next month. */
  lemma CarriesMonth(d: Date, m: Date)
    ensures PreviousMonthStart(d) == Some(m) <==> m.day == 1 && MonthNumber(d) == MonthNumber(m) + 1
    ensures PreviousMonthStart(d) == None <==> d.year == 1 && d.month == 1
  {
  }

  /*** Ranges of days ***/

  /** Later days have greater ranks. */
  function Rank(d: Date): nat {
    372 * d.year + 31 * d.month + d.day
  }

  /** `daterange`; stepping past the last date fails. */
  function DateRange(start: Date, end: Date): Option<seq<Date>>
    decreases Rank(end) - Rank(start)
  {
    if !AtMost(start, end) then Some([])
    else if NextDay(start).None? then None
    else
      match DateRange(NextDay(start).value, end)
      case None => None
      case Some(rest) => Some([start] + rest)
  }

  ghost predicate Chronological(days: seq<Date>) {
    forall i, j :: 0 <= i < j < |days| ==> Before(days[i], days[j])
  }

  /** A range fails exactly when it would have to step past the last date. */
  lemma {:induction false} DateRangeFailsIff(start: Date, end: Date)
    ensures DateRange(start, end).None? <==> end == LAST_DATE
    decreases Rank(end) - Rank(start)
  {
    if AtMost(start, end) {
      NextDayIsNext(start, end);
      if NextDay(start).Some? {
        DateRangeFailsIff(NextDay(start).value, end);
      }
    }
  }

  /** A range holds each day from `start` to `end` once, in order. */
  lemma {:induction false} DateRangeIsDense(start: Date, end: Date)
    requires DateRange(start, end).Some?
    ensures Chronological(DateRange(start, end).value)
    ensures forall d: Date :: d in DateRange(start, end).value <==> AtMost(start, d) && AtMost(d, end)
    decreases Rank(end) - Rank(start)
  {
    if AtMost(start, end) {
      var next := NextDay(start).value;
      var rest := DateRange(next, end).value;
      DateRangeIsDense(next, end);
      forall d: Date ensures d in [start] + rest <==> AtMost(start, d) && AtMost(d, end) {
        NextDayIsNext(start, d);
      }
      forall j | 0 <= j < |rest| ensures Before(start, rest[j]) {
        assert rest[j] in rest;
        NextDayIsNext(start, rest[j]);
      }
    }
  }

  function Preceded(days: seq<Date>, rest: Option<seq<Date>>): Option<seq<Date>> {
    match rest
    case None => None
    case Some(more) => Some(days + more)
  }

  method DaysBetween(start: Date, end: Date) returns (out: Option<seq<Date>>)
    ensures out == DateRange(start, end)
  {
    var days: seq<Date>, current: Date := [], start;
    assert forall more: seq<Date> :: days + more == more;
    while AtMost(current, end)
      invariant DateRange(start, end) == Preceded(days, DateRange(current, end))
      decreases Rank(end) + 1 - Rank(current)
    {
      var next := NextDay(current);
      if next.None? {
        return None;
      }
      assert forall more: seq<Date> :: days + ([current] + more) == (days + [current]) + more;
      days := days + [current];
      current := next.value;
    }
    assert days + [] == days;
    return Some(days);
  }
}
