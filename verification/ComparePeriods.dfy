/**
 * The reporting dates of each period and of its previous window, and which model offset reaches that window on every day.
 * A date is a day number; months are numbered from the calendar's first, and `start` gives their first days.
 */
module ComparePeriods {
  import opened Common
  import opened Timestamps
  import opened DataEngine
  import opened CompareWidget
  import opened CompareMeasure
  import opened CompareCorrectness

  type Months = nat -> int

  /** Months come one after the other, none shorter than 28 days. */
  ghost predicate IsCalendar(start: Months) {
    forall t: nat, u: nat {:trigger start(t), start(u)} :: t < u ==> start(t) + 28 <= start(u)
  }

  function LengthOf(start: Months, t: nat): int { start(t + 1) - start(t) }

  /** `Date.UTC` takes years below 100 for years of the twentieth century, and windows reach two years back. */
  const FIRST_MONTH := 12 * 102

  datatype CivilDate = CivilDate(month: nat, day: nat)

  predicate IsDay(start: Months, c: CivilDate) { c.month >= FIRST_MONTH && 1 <= c.day <= LengthOf(start, c.month) }

  function NumberOf(start: Months, c: CivilDate): int { start(c.month) + c.day - 1 }

  /** The same day of another month, capped at its end. */
  function SameDayIn(start: Months, t: nat, day: int): int {
    start(t) + (if day < LengthOf(start, t) then day else LengthOf(start, t)) - 1
  }

  // ---- The Gregorian calendar ----

  function MonthStart(t: nat): int { DayNumber(t / 12, t % 12 + 1, 1) }

  lemma NextMonth(t: nat)
    ensures MonthStart(t + 1) == MonthStart(t) + DaysInMonth(t / 12, t % 12 + 1)
  {
    var y := t / 12;
    if t % 12 == 11 {
      assert (t + 1) / 12 == y + 1 && (t + 1) % 12 == 0;
      YearLength(y);
      LeapStep(y);
    } else {
      assert (t + 1) / 12 == y && (t + 1) % 12 == t % 12 + 1;
    }
  }

  predicate NextIsLater(start: Months, t: nat) { start(t) + 28 <= start(t + 1) }

  lemma {:induction false} MonthsGrow(start: Months, t: nat, u: nat)
    requires t < u && forall n: nat :: NextIsLater(start, n)
    ensures start(t) + 28 <= start(u)
  {
    assert NextIsLater(start, u - 1);
    if t < u - 1 { MonthsGrow(start, t, u - 1); }
  }

  lemma GregorianIsCalendar()
    ensures IsCalendar(MonthStart)
  {
    forall n: nat ensures NextIsLater(MonthStart, n) {
      NextMonth(n);
    }
    forall t: nat, u: nat | t < u ensures MonthStart(t) + 28 <= MonthStart(u) {
      MonthsGrow(MonthStart, t, u);
    }
  }

  lemma LengthIs(t: nat, year: nat, month: nat)
    requires 1 <= month <= 12 && t == 12 * year + month - 1
    ensures LengthOf(MonthStart, t) == DaysInMonth(year, month) && MonthStart(t) == DayNumber(year, month, 1)
  {
    assert t / 12 == year && t % 12 == month - 1;
    NextMonth(t);
  }

  lemma DayAfterFirst(year: nat, month: nat, day: nat)
    requires 1 <= month <= 12 && day >= 1
    ensures DayNumber(year, month, day) == DayNumber(year, month, 1) + day - 1
  {
  }

  /** Years, months and days of the calendar are exactly these dates. */
  lemma DatesAreCivil(year: nat, month: nat, day: nat)
    requires 1 <= month <= 12 && year >= 102
    ensures var c := CivilDate(12 * year + month - 1, day);
      && (IsDay(MonthStart, c) <==> 1 <= day <= DaysInMonth(year, month))
      && (IsDay(MonthStart, c) ==> NumberOf(MonthStart, c) == DayNumber(year, month, day))
  {
    LengthIs(12 * year + month - 1, year, month);
    if day >= 1 { DayAfterFirst(year, month, day); }
  }

  // ---- The widget's windows ----

  /** Inclusive dates. */
  datatype DateRange = DateRange(from: int, to: int)

  /** Day number 3 is a Monday. */
  function SinceMonday(d: int): int { (d - 3) % 7 }

  /** How many days the periods of a fixed number of days have. */
  function DaysOf(p: Period): int { if p.Last7Days? then 7 else if p.Last30Days? then 30 else if p.Last90Days? then 90 else 1 }

  function QuarterOf(t: nat): nat { t - t % 3 }

  function YearOf(t: nat): nat { t - t % 12 }

  function DatesOf(start: Months, p: Period, c: CivilDate): DateRange
    requires IsDay(start, c)
  {
    var d := NumberOf(start, c);
    match p
    case ThisWeek => DateRange(d - SinceMonday(d), d)
    case ThisMonth => DateRange(start(c.month), d)
    case ThisQuarter => DateRange(start(QuarterOf(c.month)), d)
    case ThisYear => DateRange(start(YearOf(c.month)), d)
    case Last12Months => DateRange(start(c.month - 11), d)
    case _ => DateRange(d - (DaysOf(p) - 1), d)
  }

  function PreviousDates(start: Months, p: Period, c: CivilDate): DateRange
    requires IsDay(start, c)
  {
    var d, from := NumberOf(start, c), DatesOf(start, p, c).from;
    match p
    case ThisWeek => DateRange(from - 7, d - 7)
    case ThisMonth => DateRange(start(c.month - 1), SameDayIn(start, c.month - 1, c.day))
    case ThisQuarter =>
      var previous := start(QuarterOf(c.month) - 3);
      DateRange(previous, if previous + (d - from) < from - 1 then previous + (d - from) else from - 1)
    case ThisYear => DateRange(start(YearOf(c.month) - 12), SameDayIn(start, c.month - 12, c.day))
    case Last12Months => DateRange(start(c.month - 23), SameDayIn(start, c.month - 12, c.day))
    case _ => DateRange(from - DaysOf(p), from - 1)
  }

  /** The windows are not empty, the previous one first. */
  predicate InSequence(previous: DateRange, dates: DateRange) { previous.from <= previous.to < dates.from <= dates.to }

  lemma QuarterComesAfter(start: Months, c: CivilDate)
    requires IsCalendar(start) && IsDay(start, c)
    ensures InSequence(PreviousDates(start, ThisQuarter, c), DatesOf(start, ThisQuarter, c))
  {
    var q := QuarterOf(c.month);
    assert start(q - 3) + 28 <= start(q) && q <= c.month;
  }

  lemma YearComesAfter(start: Months, c: CivilDate)
    requires IsCalendar(start) && IsDay(start, c)
    ensures InSequence(PreviousDates(start, ThisYear, c), DatesOf(start, ThisYear, c))
  {
    var t, y := c.month, YearOf(c.month);
    assert start(t - 12) + 28 <= start(t - 11);
    assert y - 12 <= t - 12 < y <= t;
  }

  /** The previous window is never empty, and lies before the period's own dates. */
  lemma PreviousComesBefore(start: Months, p: Period, c: CivilDate)
    requires IsCalendar(start) && IsDay(start, c)
    ensures InSequence(PreviousDates(start, p, c), DatesOf(start, p, c))
  {
    var t := c.month;
    match p
    case ThisMonth => assert start(t - 1) + 28 <= start(t);
    case ThisQuarter => QuarterComesAfter(start, c);
    case ThisYear => YearComesAfter(start, c);
    case Last12Months => assert start(t - 12) + 28 <= start(t - 11);
    case _ =>
  }

  predicate IsLengthOf(days: int, p: Period) {
    match p
    case Today => days == 1
    case Last7Days => days == 7
    case Last30Days => days == 30
    case Last90Days => days == 90
    case _ => false
  }

  /** A period of so many days ends today, and its previous window is as long and ends the day before it begins. */
  lemma PeriodLengths(start: Months, p: Period, c: CivilDate, days: int)
    requires IsDay(start, c) && IsLengthOf(days, p)
    ensures DatesOf(start, p, c) == DateRange(NumberOf(start, c) - days + 1, NumberOf(start, c))
    ensures PreviousDates(start, p, c) == DateRange(NumberOf(start, c) - 2 * days + 1, NumberOf(start, c) - days)
  {
  }

  /** The day of month `t` with that number, or its last one in a shorter month. */
  predicate IsSameDay(start: Months, d: int, t: nat, day: int) {
    && start(t) <= d < start(t + 1)
    && (d == start(t) + day - 1 || (d == start(t + 1) - 1 && d < start(t) + day - 1))
  }

  lemma SameDayIs(start: Months, t: nat, day: int)
    requires day >= 1 && start(t) < start(t + 1)
    ensures IsSameDay(start, SameDayIn(start, t, day), t, day)
  {
  }

  /** The week began on Monday; the week before it is as long. */
  lemma WeekIs(start: Months, c: CivilDate)
    requires IsDay(start, c)
    ensures var dates, previous := DatesOf(start, ThisWeek, c), PreviousDates(start, ThisWeek, c);
      && dates.from % 7 == 3 && dates.from <= dates.to < dates.from + 7 && dates.to == NumberOf(start, c)
      && previous == DateRange(dates.from - 7, dates.to - 7)
  {
  }

  lemma MonthIs(start: Months, c: CivilDate)
    requires IsCalendar(start) && IsDay(start, c)
    ensures var dates, previous := DatesOf(start, ThisMonth, c), PreviousDates(start, ThisMonth, c);
      && dates == DateRange(start(c.month), NumberOf(start, c))
      && previous.from == start(c.month - 1) && IsSameDay(start, previous.to, c.month - 1, c.day)
  {
    assert start(c.month - 1) + 28 <= start(c.month);
    SameDayIs(start, c.month - 1, c.day);
  }

  /** The quarter begins with month `q`, and the previous window goes as far into the quarter before. */
  lemma QuarterIs(start: Months, c: CivilDate, q: nat)
    requires IsDay(start, c) && q <= c.month < q + 3 && q % 3 == 0
    ensures var dates, previous := DatesOf(start, ThisQuarter, c), PreviousDates(start, ThisQuarter, c);
      && dates == DateRange(start(q), NumberOf(start, c)) && previous.from == start(q - 3)
      && previous.to <= start(q) - 1 && previous.to - previous.from <= dates.to - dates.from
      && (previous.to == start(q) - 1 || previous.to - previous.from == dates.to - dates.from)
  {
    QuarterBegins(c.month, q);
  }

  lemma QuarterBegins(t: nat, q: nat)
    requires q <= t < q + 3 && q % 3 == 0
    ensures QuarterOf(t) == q
  {
  }

  lemma YearBegins(t: nat, y: nat)
    requires y <= t < y + 12 && y % 12 == 0
    ensures YearOf(t) == y
  {
  }

  lemma YearIs(start: Months, c: CivilDate, y: nat)
    requires IsCalendar(start) && IsDay(start, c) && y <= c.month < y + 12 && y % 12 == 0
    ensures var dates, previous := DatesOf(start, ThisYear, c), PreviousDates(start, ThisYear, c);
      && dates == DateRange(start(y), NumberOf(start, c)) && previous.from == start(y - 12)
      && IsSameDay(start, previous.to, c.month - 12, c.day)
  {
    YearBegins(c.month, y);
    assert start(c.month - 12) + 28 <= start(c.month - 11);
    SameDayIs(start, c.month - 12, c.day);
  }

  /** Twelve months with the current one; the twelve before them, as far into the last. */
  lemma TwelveMonthsAre(start: Months, c: CivilDate)
    requires IsCalendar(start) && IsDay(start, c)
    ensures var dates, previous := DatesOf(start, Last12Months, c), PreviousDates(start, Last12Months, c);
      && dates == DateRange(start(c.month - 11), NumberOf(start, c)) && previous.from == start(c.month - 23)
      && IsSameDay(start, previous.to, c.month - 12, c.day)
  {
    assert start(c.month - 12) + 28 <= start(c.month - 11);
    SameDayIs(start, c.month - 12, c.day);
  }

  // ---- Model offsets ----

  /** Offsets that are defined over a whole range; a year is twelve months. Day and week offsets need single dates. */
  datatype Offset = ByRange | ByMonths(n: nat)

  predicate ValidOffset(o: Offset) { o.ByMonths? ==> 1 <= o.n <= 12 }

  /** The month of a date that is not after month `t`. */
  function MonthOf(start: Months, d: int, t: nat): (m: nat)
    ensures m <= t
  {
    if t == 0 || start(t) <= d then t else MonthOf(start, d, t - 1)
  }

  lemma {:induction false} MonthIsFound(start: Months, d: int, t: nat, m: nat)
    requires IsCalendar(start) && m <= t && start(m) <= d
    ensures m <= MonthOf(start, d, t)
    ensures d < start(m + 1) ==> MonthOf(start, d, t) == m
  {
    if m < t {
      if m + 1 < t { assert start(m + 1) + 28 <= start(t); }
      if start(t) > d { MonthIsFound(start, d, t - 1, m); }
    }
  }

  /** The dates the offset compares a range with; `t` is the month of its last date. */
  function OffsetDates(start: Months, r: DateRange, o: Offset, t: nat): DateRange
    requires ValidOffset(o) && (o.ByMonths? ==> MonthOf(start, r.from, t) >= 12 && MonthOf(start, r.to, t) >= 12)
  {
    match o
    case ByRange =>
      var days := r.to - r.from + 1;
      DateRange(r.from - days, r.to - days)
    case ByMonths(n) =>
      var a, b := MonthOf(start, r.from, t), MonthOf(start, r.to, t);
      DateRange(SameDayIn(start, a - n, r.from - start(a) + 1),
                if r.from != r.to && r.to == start(b + 1) - 1 then start(b - n + 1) - 1
                else SameDayIn(start, b - n, r.to - start(b) + 1))
  }

  /**
   * A range offset goes back by the range's own length. A month offset takes both dates to the same days so many months
   * before, and the end of a range at the end of a month to the end of one.
   */
  lemma OffsetIs(start: Months, r: DateRange, a: nat, b: nat, n: nat)
    requires IsCalendar(start) && 12 <= a <= b && 1 <= n <= 12
    requires start(a) <= r.from < start(a + 1) && start(b) <= r.to < start(b + 1)
    ensures OffsetDates(start, r, ByRange, b) == DateRange(2 * r.from - r.to - 1, r.from - 1)
    ensures MonthOf(start, r.from, b) == a && MonthOf(start, r.to, b) == b
    ensures IsSameDay(start, OffsetDates(start, r, ByMonths(n), b).from, a - n, r.from - start(a) + 1)
    ensures r.from != r.to && r.to == start(b + 1) - 1 ==> OffsetDates(start, r, ByMonths(n), b).to == start(b - n + 1) - 1
    ensures r.from == r.to || r.to != start(b + 1) - 1 ==>
      IsSameDay(start, OffsetDates(start, r, ByMonths(n), b).to, b - n, r.to - start(b) + 1)
  {
    MonthIsFound(start, r.from, b, a);
    MonthIsFound(start, r.to, b, b);
    MonthIsLonger(start, a - n);
    MonthIsLonger(start, b - n);
    OffsetByMonths(start, r, a, b, n);
  }

  lemma MonthIsLonger(start: Months, t: nat)
    requires IsCalendar(start)
    ensures start(t) < start(t + 1)
  {
    assert start(t) + 28 <= start(t + 1);
  }

  lemma OffsetByMonths(start: Months, r: DateRange, a: nat, b: nat, n: nat)
    requires 12 <= a <= b && 1 <= n <= 12 && MonthOf(start, r.from, b) == a && MonthOf(start, r.to, b) == b
    requires start(a) <= r.from && start(b) <= r.to && start(a - n) < start(a - n + 1) && start(b - n) < start(b - n + 1)
    ensures IsSameDay(start, OffsetDates(start, r, ByMonths(n), b).from, a - n, r.from - start(a) + 1)
    ensures r.from != r.to && r.to == start(b + 1) - 1 ==> OffsetDates(start, r, ByMonths(n), b).to == start(b - n + 1) - 1
    ensures r.from == r.to || r.to != start(b + 1) - 1 ==>
      IsSameDay(start, OffsetDates(start, r, ByMonths(n), b).to, b - n, r.to - start(b) + 1)
  {
    SameDayIs(start, a - n, r.from - start(a) + 1);
    SameDayIs(start, b - n, r.to - start(b) + 1);
  }

  /** No period reaches further back than eleven months before its last month. */
  lemma MonthsOfDates(start: Months, p: Period, c: CivilDate)
    requires IsCalendar(start) && IsDay(start, c)
    ensures c.month - 11 <= MonthOf(start, DatesOf(start, p, c).from, c.month)
    ensures MonthOf(start, DatesOf(start, p, c).to, c.month) == c.month
  {
    var t := c.month;
    assert start(t - 4) + 28 <= start(t - 3) && start(t - 3) + 28 <= start(t - 2) && start(t - 2) + 28 <= start(t - 1);
    assert start(t - 1) + 28 <= start(t) && start(t - 11) + 28 <= start(t - 4);
    assert YearOf(t) >= t - 11 && QuarterOf(t) >= t - 11;
    MonthIsFound(start, DatesOf(start, p, c).from, t, t - 11);
    MonthIsFound(start, DatesOf(start, p, c).to, t, t);
  }

  /** On this day the offset over the period's dates compares with exactly its previous window. */
  ghost predicate Reaches(start: Months, p: Period, o: Offset, c: CivilDate)
    requires IsCalendar(start) && IsDay(start, c) && ValidOffset(o)
  {
    MonthsOfDates(start, p, c);
    OffsetDates(start, DatesOf(start, p, c), o, c.month) == PreviousDates(start, p, c)
  }

  ghost predicate IsExact(start: Months, p: Period, o: Offset)
    requires IsCalendar(start) && ValidOffset(o)
  {
    forall c :: IsDay(start, c) ==> Reaches(start, p, o, c)
  }

  lemma RangeIsExact(start: Months, p: Period)
    requires IsCalendar(start) && HasOffset(p)
    ensures IsExact(start, p, ByRange)
  {
  }

  // Days on which other offsets miss: 1 January 2024, a Monday; 30 April and 31 May 2024; 28 February 2025.

  const NEW_YEAR := CivilDate(24_288, 1)
  const APRIL_END := CivilDate(24_291, 30)
  const MAY_END := CivilDate(24_292, 31)
  const FEBRUARY_END := CivilDate(24_301, 28)

  lemma FirstDays()
    ensures MonthStart(24_265) == 738_553 && MonthStart(24_277) == 738_918 && MonthStart(24_288) == 739_252
  {
  }

  /** The lengths of the months around those days. */
  ghost predicate KnownMonths(start: Months) {
    && start(24_265) == 738_553 && start(24_277) == 738_918 && start(24_288) == 739_252
    && LengthOf(start, 24_287) == LengthOf(start, 24_288) == LengthOf(start, 24_290) == LengthOf(start, 24_292) == 31
    && LengthOf(start, 24_289) == 29 && LengthOf(start, 24_291) == 30 && LengthOf(start, 24_301) == 28
  }

  lemma MonthsAreKnown()
    ensures KnownMonths(MonthStart)
  {
    FirstDays();
    LengthIs(24_287, 2023, 12);
    LengthIs(24_288, 2024, 1);
    LengthIs(24_289, 2024, 2);
    LengthIs(24_290, 2024, 3);
    LengthIs(24_291, 2024, 4);
    LengthIs(24_292, 2024, 5);
    LengthIs(24_301, 2025, 2);
  }

  /** On the first day of a year and week, a range is too short or too long to shift to any refused period's window. */
  lemma RangeMisses(start: Months, p: Period)
    requires IsCalendar(start) && KnownMonths(start) && !HasOffset(p)
    ensures IsDay(start, NEW_YEAR) && !Reaches(start, p, ByRange, NEW_YEAR)
  {
    assert start(24_276) + 28 <= start(24_287) && start(24_285) + 28 <= start(24_287);
  }

  /** The one number of months that starts a period's previous window with the month its dates start with, shifted. */
  function MonthsBack(p: Period): nat { if p.ThisMonth? then 1 else if p.ThisQuarter? then 3 else 12 }

  lemma MonthsDiffer(start: Months, m: nat, n: nat)
    requires IsCalendar(start) && m != n
    ensures start(m) != start(n)
  {
    assert if m < n then start(m) + 28 <= start(n) else start(n) + 28 <= start(m);
  }

  /** Dates that start with a month are compared with dates that start with a month. */
  lemma FirstDayShifts(start: Months, r: DateRange, n: nat, t: nat, a: nat)
    requires IsCalendar(start) && 12 <= a <= t && 1 <= n <= 12 && r.from == start(a) && MonthOf(start, r.to, t) >= 12
    ensures MonthOf(start, r.from, t) == a && OffsetDates(start, r, ByMonths(n), t).from == start(a - n)
  {
    assert start(a) + 28 <= start(a + 1) && start(a - n) + 28 <= start(a - n + 1);
    MonthIsFound(start, r.from, t, a);
  }

  /** The month in which the period's dates start on new year's day. */
  function FirstMonth(p: Period): nat { if p.Last12Months? then 24_277 else 24_288 }

  lemma NewYearWeek(start: Months)
    requires start(24_288) == 739_252 && LengthOf(start, 24_288) == 31
    ensures IsDay(start, NEW_YEAR) && DatesOf(start, ThisWeek, NEW_YEAR) == DateRange(739_252, 739_252)
    ensures PreviousDates(start, ThisWeek, NEW_YEAR) == DateRange(739_245, 739_245)
  {
  }

  /** In a year's first month every refused period's windows start with months. */
  lemma WindowsStartWithMonths(start: Months, p: Period, c: CivilDate)
    requires !HasOffset(p) && !p.ThisWeek? && IsDay(start, c) && c.month % 12 == 0
    ensures DatesOf(start, p, c).from == start(if p.Last12Months? then c.month - 11 else c.month)
    ensures PreviousDates(start, p, c).from == start(if p.Last12Months? then c.month - 23 else c.month - MonthsBack(p))
  {
    QuarterStartsInYear(c.month);
    match p
    case ThisMonth =>
    case ThisQuarter =>
    case ThisYear =>
    case Last12Months =>
  }

  lemma QuarterStartsInYear(t: nat)
    requires t % 12 == 0
    ensures QuarterOf(t) == t && YearOf(t) == t
  {
  }

  lemma NewYearDates(start: Months, p: Period)
    requires !HasOffset(p) && !p.ThisWeek? && LengthOf(start, 24_288) == 31
    ensures IsDay(start, NEW_YEAR) && DatesOf(start, p, NEW_YEAR).from == start(FirstMonth(p))
    ensures PreviousDates(start, p, NEW_YEAR).from == start(FirstMonth(p) - MonthsBack(p))
  {
    WindowsStartWithMonths(start, p, NEW_YEAR);
  }

  /** A Monday that is the first of its month is compared with the first of a month, not with the Monday before. */
  lemma MonthsMissWeek(start: Months, n: nat)
    requires IsCalendar(start) && KnownMonths(start) && 1 <= n <= 12
    ensures IsDay(start, NEW_YEAR) && !Reaches(start, ThisWeek, ByMonths(n), NEW_YEAR)
  {
    NewYearWeek(start);
    MonthsOfDates(start, ThisWeek, NEW_YEAR);
    FirstDayShifts(start, DatesOf(start, ThisWeek, NEW_YEAR), n, 24_288, 24_288);
    assert n > 1 ==> start(24_288 - n) + 28 <= start(24_287);
  }

  lemma OtherMonthsMiss(start: Months, p: Period, n: nat)
    requires IsCalendar(start) && LengthOf(start, 24_288) == 31 && !HasOffset(p) && !p.ThisWeek?
    requires 1 <= n <= 12 && n != MonthsBack(p)
    ensures IsDay(start, NEW_YEAR) && !Reaches(start, p, ByMonths(n), NEW_YEAR)
  {
    NewYearDates(start, p);
    MonthsOfDates(start, p, NEW_YEAR);
    FirstDayShifts(start, DatesOf(start, p, NEW_YEAR), n, 24_288, FirstMonth(p));
    MonthsDiffer(start, FirstMonth(p) - n, FirstMonth(p) - MonthsBack(p));
  }

  /** A day on which the remaining offset of a refused period misses. */
  function MissedDay(p: Period): CivilDate {
    if p.ThisMonth? then APRIL_END else if p.ThisQuarter? then MAY_END else FEBRUARY_END
  }

  /** At the end of a short month the offset ends with the other month, the widget on the same day. */
  lemma MonthEndShifts(start: Months, r: DateRange, n: nat, t: nat)
    requires IsCalendar(start) && 24 <= t && 1 <= n <= 12 && r.from < r.to == start(t + 1) - 1 && MonthOf(start, r.from, t) >= 12
    ensures MonthOf(start, r.to, t) == t && OffsetDates(start, r, ByMonths(n), t).to == start(t - n + 1) - 1
  {
    assert start(t) + 28 <= start(t + 1);
    MonthIsFound(start, r.to, t, t);
  }

  lemma MonthMisses(start: Months)
    requires IsCalendar(start) && KnownMonths(start)
    ensures IsDay(start, APRIL_END) && !Reaches(start, ThisMonth, ByMonths(1), APRIL_END)
  {
    MonthsOfDates(start, ThisMonth, APRIL_END);
    MonthEndShifts(start, DatesOf(start, ThisMonth, APRIL_END), 1, 24_291);
  }

  lemma QuarterMisses(start: Months)
    requires IsCalendar(start) && KnownMonths(start)
    ensures IsDay(start, MAY_END) && !Reaches(start, ThisQuarter, ByMonths(3), MAY_END)
  {
    MonthsOfDates(start, ThisQuarter, MAY_END);
    MonthEndShifts(start, DatesOf(start, ThisQuarter, MAY_END), 3, 24_292);
  }

  lemma YearMisses(start: Months, p: Period)
    requires IsCalendar(start) && KnownMonths(start) && (p.ThisYear? || p.Last12Months?)
    ensures IsDay(start, FEBRUARY_END) && !Reaches(start, p, ByMonths(12), FEBRUARY_END)
  {
    assert start(24_290) + 28 <= start(24_300) && start(24_300) + 28 <= start(24_301);
    MonthsOfDates(start, p, FEBRUARY_END);
    MonthEndShifts(start, DatesOf(start, p, FEBRUARY_END), 12, 24_301);
  }

  /** Every offset over a range misses the previous window of every refused period on some day. */
  lemma RefusedMisses(p: Period, o: Offset) returns (c: CivilDate)
    requires !HasOffset(p) && ValidOffset(o)
    ensures IsCalendar(MonthStart) && IsDay(MonthStart, c) && !Reaches(MonthStart, p, o, c)
  {
    GregorianIsCalendar();
    MonthsAreKnown();
    c := NEW_YEAR;
    if o.ByRange? {
      RangeMisses(MonthStart, p);
    } else if p.ThisWeek? {
      MonthsMissWeek(MonthStart, o.n);
    } else if o.n != MonthsBack(p) {
      OtherMonthsMiss(MonthStart, p, o.n);
    } else {
      c := MissedDay(p);
      match p
      case ThisMonth => MonthMisses(MonthStart);
      case ThisQuarter => QuarterMisses(MonthStart);
      case _ => YearMisses(MonthStart, p);
    }
  }

  /**
   * A period has an offset that reaches its previous window on every day of the calendar, over the whole range at once,
   * exactly when the compiler accepts it; then the range offset is one.
   */
  lemma OffsetExistsIff(p: Period)
    ensures IsCalendar(MonthStart)
    ensures (exists o :: ValidOffset(o) && IsExact(MonthStart, p, o)) <==> HasOffset(p)
    ensures IsExact(MonthStart, p, ByRange) <==> HasOffset(p)
  {
    GregorianIsCalendar();
    if HasOffset(p) {
      RangeIsExact(MonthStart, p);
    } else {
      forall o | ValidOffset(o) ensures !IsExact(MonthStart, p, o) {
        var c := RefusedMisses(p, o);
        assert IsDay(MonthStart, c) && !Reaches(MonthStart, p, o, c);
      }
    }
  }

  /** A period's dates as a range that the range offset shifts by its own length. */
  function SpanOf(dates: DateRange): Span { PeriodSpan(dates.from, dates.to) }

  /**
   * On every day, for every accepted widget and fitting datasets, the compiled model over the period's dates has the
   * widget's ratio, its ratio over the widget's own previous window, and the change between the two.
   */
  lemma CompiledMeasureOnEveryDay(input: Input, sources: map<string, Table>, today: CivilDate) returns (values: Row)
    requires Compiled(input).Ok? && SourcesFit(input, sources) && IsDay(MonthStart, today)
    ensures Evaluates(input, sources, SpanOf(DatesOf(MonthStart, input.period, today)), values)
    ensures var before := PreviousDates(MonthStart, input.period, today);
      ShowsWidgetNumbers(input, sources, values, SpanOf(DatesOf(MonthStart, input.period, today)), SpanOf(before))
  {
    AcceptedHasOffset(input);
    var dates := DatesOf(MonthStart, input.period, today);
    ShiftReachesPrevious(input.period, today);
    values := CompiledMeasureIsTheWidget(input, sources, dates.from, dates.to);
  }

  /** Over an accepted period's dates the range offset reads exactly the widget's own previous window. */
  lemma ShiftReachesPrevious(p: Period, today: CivilDate)
    requires HasOffset(p) && IsDay(MonthStart, today)
    ensures var span, previous := SpanOf(DatesOf(MonthStart, p, today)), PreviousDates(MonthStart, p, today);
      span.from <= span.to && Shifted(span) == Span(previous.from, previous.to, span.shift)
  {
    GregorianIsCalendar();
    PreviousComesBefore(MonthStart, p, today);
    RangeIsExact(MonthStart, p);
    assert Reaches(MonthStart, p, ByRange, today);
  }

  lemma AcceptedHasOffset(input: Input)
    requires Compiled(input).Ok?
    ensures HasOffset(input.period)
  {
  }
}
