/**
 * Proleptic Gregorian calendar arithmetic, as JavaScript's `Date` object
 * performs it for the dashboard's month grid.
 *
 * Months are numbered 1..12 here (JavaScript numbers them 0..11). Years are
 * astronomical (year 0 exists, year -1 is 2 BC) and unbounded.
 */
module Calendar {

  /** A calendar date. */
  datatype Date = Date(year: int, month: int, day: int)

  /** A month of a particular year. */
  datatype YearMonth = YearMonth(year: int, month: int)

  predicate IsLeapYear(y: int) {
    (y % 4 == 0 && y % 100 != 0) || y % 400 == 0
  }

  function YearLength(y: int): int {
    if IsLeapYear(y) then 366 else 365
  }

  predicate ValidMonth(ym: YearMonth) {
    1 <= ym.month <= 12
  }

  /** Days of the year that precede the first of month `m` (the ordinal-date table). */
  function DaysBeforeMonth(y: int, m: int): (n: int)
    requires 1 <= m <= 12
    ensures 0 <= n <= 335
  {
    var common :=
      match m
      case 1 => 0   case 2 => 31  case 3 => 59   case 4 => 90
      case 5 => 120 case 6 => 151 case 7 => 181  case 8 => 212
      case 9 => 243 case 10 => 273 case 11 => 304 case _ => 334;
    common + (if m > 2 && IsLeapYear(y) then 1 else 0)
  }

  /**
   * Length of month `m` of year `y`: the value `new Date(y, m, 0).getDate()`
   * yields. It agrees with the ordinal-date table: each month fills the gap
   * up to the start of the next one, and December closes the year.
   */
  function DaysInMonth(y: int, m: int): (n: int)
    requires 1 <= m <= 12
    ensures 28 <= n <= 31
    ensures m < 12 ==> DaysBeforeMonth(y, m + 1) == DaysBeforeMonth(y, m) + n
    ensures m == 12 ==> DaysBeforeMonth(y, 12) + n == YearLength(y)
    ensures n == 29 <==> m == 2 && IsLeapYear(y)
  {
    if m == 2 then (if IsLeapYear(y) then 29 else 28)
    else if m == 4 || m == 6 || m == 9 || m == 11 then 30
    else 31
  }

  predicate ValidDate(d: Date) {
    1 <= d.month <= 12 && 1 <= d.day <= DaysInMonth(d.year, d.month)
  }

  /** Days from 0000-01-01 to the first of January of year `y` (negative before year 0). */
  function DaysBeforeYear(y: int): int {
    365 * y + (y + 3) / 4 - (y + 99) / 100 + (y + 399) / 400
  }

  /** Floor division by 4 steps up between `y + 3` and `y + 4` exactly when 4 divides `y`. */
  lemma StepFour(y: int)
    ensures (y + 4) / 4 - (y + 3) / 4 == if y % 4 == 0 then 1 else 0
  {
  }

  lemma StepHundred(y: int)
    ensures (y + 100) / 100 - (y + 99) / 100 == if y % 100 == 0 then 1 else 0
  {
  }

  lemma StepFourHundred(y: int)
    ensures (y + 400) / 400 - (y + 399) / 400 == if y % 400 == 0 then 1 else 0
  {
  }

  /** A multiple of 400 is a multiple of 100, and a multiple of 100 a multiple of 4. */
  lemma DivisorChain(y: int)
    ensures y % 400 == 0 ==> y % 100 == 0
    ensures y % 100 == 0 ==> y % 4 == 0
  {
  }

  lemma {:induction false} DaysBeforeYearStep(y: int)
    ensures DaysBeforeYear(y + 1) == DaysBeforeYear(y) + YearLength(y)
  {
    StepFour(y);
    StepHundred(y);
    StepFourHundred(y);
    DivisorChain(y);
  }

  /** Days from 0000-01-01 to `d`; JavaScript's day count is this minus 719528. */
  function DayNumber(d: Date): int
    requires 1 <= d.month <= 12
  {
    DaysBeforeYear(d.year) + DaysBeforeMonth(d.year, d.month) + d.day - 1
  }

  /** `getDay()`: 0 = Sunday .. 6 = Saturday. 0000-01-01 was a Saturday. */
  function DayOfWeek(d: Date): (w: int)
    requires 1 <= d.month <= 12
    ensures 0 <= w < 7
  {
    (DayNumber(d) + 6) % 7
  }

  /** The day after `d`, rolling over month and year ends. */
  function NextDay(d: Date): Date
    requires ValidDate(d)
  {
    if d.day < DaysInMonth(d.year, d.month) then Date(d.year, d.month, d.day + 1)
    else if d.month < 12 then Date(d.year, d.month + 1, 1)
    else Date(d.year + 1, 1, 1)
  }

  /** The day count advances by one from each valid date to the next, and the weekday cycles. */
  lemma NextDayAdvances(d: Date)
    requires ValidDate(d)
    ensures ValidDate(NextDay(d))
    ensures DayNumber(NextDay(d)) == DayNumber(d) + 1
    ensures DayOfWeek(NextDay(d)) == (DayOfWeek(d) + 1) % 7
  {
    var y, m := d.year, d.month;
    var n := DaysInMonth(y, m);
    if d.day < n {
      assert NextDay(d) == Date(y, m, d.day + 1);
    } else if m < 12 {
      assert NextDay(d) == Date(y, m + 1, 1);
      assert DaysBeforeMonth(y, m + 1) == DaysBeforeMonth(y, m) + n;
    } else {
      assert NextDay(d) == Date(y + 1, 1, 1);
      DaysBeforeYearStep(y);
      assert DaysBeforeMonth(y, 12) + n == YearLength(y);
    }
    WeekdayStep(DayNumber(d));
  }

  lemma WeekdayStep(n: int)
    ensures (n + 1 + 6) % 7 == ((n + 6) % 7 + 1) % 7
  {
  }

  /** The JavaScript epoch, 1970-01-01, was a Thursday; so was 2024-02-01. */
  lemma WeekdayAnchors()
    ensures DayNumber(Date(1970, 1, 1)) == 719528
    ensures DayOfWeek(Date(1970, 1, 1)) == 4
    ensures DayOfWeek(Date(2024, 2, 1)) == 4
  {
  }

  /**
   * ECMAScript's `DayFromYear(y)`: days from 1970-01-01 to the first of
   * January of `y`, written with its own floors (section 21.4.1.3 of
   * ECMA-262). Dafny's `/` by a positive constant is the floor.
   */
  function EcmaDayFromYear(y: int): int {
    365 * (y - 1970) + (y - 1969) / 4 - (y - 1901) / 100 + (y - 1601) / 400
  }

  /** ECMAScript's `Day` of a date: `DayFromYear`, plus the days of the earlier months, plus the date less one. */
  function EcmaDay(d: Date): int
    requires 1 <= d.month <= 12
  {
    EcmaDayFromYear(d.year) + DaysBeforeMonth(d.year, d.month) + d.day - 1
  }

  lemma ShiftByFour(a: int)
    ensures (a - 1972) / 4 == a / 4 - 493
  {
  }

  lemma ShiftByHundred(a: int)
    ensures (a - 2000) / 100 == a / 100 - 20
  {
  }

  lemma ShiftByFourHundred(a: int)
    ensures (a - 2000) / 400 == a / 400 - 5
  {
  }

  /** The day count from year 0 and ECMAScript's count from 1970 differ by the epoch's 719528 days. */
  lemma {:induction false} DayFromYearMatchesEcmaScript(y: int)
    ensures DaysBeforeYear(y) - 719528 == EcmaDayFromYear(y)
  {
    ShiftByFour(y + 3);
    ShiftByHundred(y + 99);
    ShiftByFourHundred(y + 399);
  }

  /** `getDay` agrees with ECMAScript's `WeekDay(t) = (Day(t) + 4) modulo 7` for every date. */
  lemma WeekdayMatchesEcmaScript(d: Date)
    requires 1 <= d.month <= 12
    ensures DayOfWeek(d) == (EcmaDay(d) + 4) % 7
  {
    DayFromYearMatchesEcmaScript(d.year);
    var n := DayNumber(d);
    assert EcmaDay(d) == n - 719528;
    assert n - 719528 + 4 == (n + 6) - 7 * 102790;
  }

  /** Months elapsed since January of year 0. */
  function MonthIndex(ym: YearMonth): int {
    ym.year * 12 + ym.month - 1
  }

  lemma MonthIndexInjective(a: YearMonth, b: YearMonth)
    requires ValidMonth(a) && ValidMonth(b)
    requires MonthIndex(a) == MonthIndex(b)
    ensures a == b
  {
  }

  /**
   * JavaScript's month normalisation (`MakeDay` in ECMAScript): year `y`
   * with a 0-based month argument `m` of any size denotes the month `m`
   * steps after January of `y`.
   */
  function MakeMonth(y: int, m: int): (r: YearMonth)
    ensures ValidMonth(r)
    ensures MonthIndex(r) == 12 * y + m
  {
    YearMonth(y + m / 12, m % 12 + 1)
  }

  /** The month `k` steps away, as `new Date(year, month + k, 1)` finds it. */
  function AddMonths(ym: YearMonth, k: int): (r: YearMonth)
    ensures ValidMonth(r)
    ensures MonthIndex(r) == MonthIndex(ym) + k
  {
    MakeMonth(ym.year, ym.month - 1 + k)
  }

  /** The previous month, with January rolling back to December of the previous year. */
  function PrevMonth(ym: YearMonth): YearMonth {
    if ym.month == 1 then YearMonth(ym.year - 1, 12) else YearMonth(ym.year, ym.month - 1)
  }

  /** The next month, with December rolling forward to January of the next year. */
  function NextMonth(ym: YearMonth): YearMonth {
    if ym.month == 12 then YearMonth(ym.year + 1, 1) else YearMonth(ym.year, ym.month + 1)
  }

  /** Stepping by -1 and +1 through normalisation gives the explicit rollover months. */
  lemma AddMonthsNeighbours(ym: YearMonth)
    requires ValidMonth(ym)
    ensures AddMonths(ym, -1) == PrevMonth(ym)
    ensures AddMonths(ym, 1) == NextMonth(ym)
  {
    MonthIndexInjective(AddMonths(ym, -1), PrevMonth(ym));
    MonthIndexInjective(AddMonths(ym, 1), NextMonth(ym));
  }

  /** Month steps compose, and a step is undone by the opposite step. */
  lemma AddMonthsCompose(ym: YearMonth, a: int, b: int)
    requires ValidMonth(ym)
    ensures AddMonths(AddMonths(ym, a), b) == AddMonths(ym, a + b)
    ensures AddMonths(AddMonths(ym, a), -a) == ym
  {
    MonthIndexInjective(AddMonths(AddMonths(ym, a), b), AddMonths(ym, a + b));
    MonthIndexInjective(AddMonths(AddMonths(ym, a), -a), ym);
  }

  function FirstOf(ym: YearMonth): Date {
    Date(ym.year, ym.month, 1)
  }

  /** The first of the next month comes exactly one month length after the first of this one. */
  lemma NextMonthStart(ym: YearMonth)
    requires ValidMonth(ym)
    ensures DayNumber(FirstOf(NextMonth(ym))) == DayNumber(FirstOf(ym)) + DaysInMonth(ym.year, ym.month)
  {
    if ym.month == 12 {
      DaysBeforeYearStep(ym.year);
    }
  }

  /**
   * The year JavaScript's `Date` constructor uses for a year argument `y`:
   * arguments 0..99 are read as 1900..1999 (ECMA-262, the `Date` constructor
   * and `MakeFullYear`).
   */
  function ConstructorYear(y: int): int {
    if 0 <= y <= 99 then 1900 + y else y
  }
}
