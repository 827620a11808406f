/**
 * The dashboard calendar's month grid: six Sunday-first weeks (42 cells)
 * made of the tail of the previous month, the whole current month, and the
 * head of the next month.
 */
module MonthGrid {
  import opened Calendar

  /** One grid cell: the day number shown, whether it belongs to the displayed month, and its date. */
  datatype CalendarDay = CalendarDay(day: int, isCurrentMonth: bool, date: Date)

  const GridSize: nat := 42

  /** Number of previous-month cells: the weekday index (0 = Sunday) of the first of the month. */
  function LeadingCount(ym: YearMonth): (s: nat)
    requires ValidMonth(ym)
    ensures s <= 6
  {
    DayOfWeek(FirstOf(ym))
  }

  function MonthLength(ym: YearMonth): (n: nat)
    requires ValidMonth(ym)
    ensures 28 <= n <= 31
  {
    DaysInMonth(ym.year, ym.month)
  }

  /** Number of next-month cells that complete the 42. */
  function TrailingCount(ym: YearMonth): (t: nat)
    requires ValidMonth(ym)
    ensures LeadingCount(ym) + MonthLength(ym) + t == GridSize
    ensures t >= 5
  {
    GridSize - LeadingCount(ym) - MonthLength(ym)
  }

  /**
   * Cell `i` of the grid, with `s` the weekday of day 1 and `n` the month's
   * length: cells below `s` are the last `s` days of the month before, the
   * next `n` are days 1..n of the month, and the rest are the month after,
   * numbered from 1. The neighbouring months come from `Date`'s month
   * normalisation (`month - 1`, `month + 1`).
   */
  function Cell(ym: YearMonth, i: int): (c: CalendarDay)
    requires ValidMonth(ym) && 0 <= i < GridSize
    ensures ValidDate(c.date) && c.day == c.date.day
  {
    var s, n := LeadingCount(ym), MonthLength(ym);
    if i < s then
      var prev := AddMonths(ym, -1);
      var day := DaysInMonth(prev.year, prev.month) - s + 1 + i;
      CalendarDay(day, false, Date(prev.year, prev.month, day))
    else if i < s + n then
      CalendarDay(i - s + 1, true, Date(ym.year, ym.month, i - s + 1))
    else
      var next := AddMonths(ym, 1);
      CalendarDay(i - s - n + 1, false, Date(next.year, next.month, i - s - n + 1))
  }

  /** The grid `getDaysInMonth` returns for month `ym`. */
  function Grid(ym: YearMonth): (g: seq<CalendarDay>)
    requires ValidMonth(ym)
    ensures |g| == GridSize
    ensures forall i :: 0 <= i < GridSize ==> ValidDate(g[i].date)
  {
    seq(GridSize, i requires 0 <= i < GridSize => Cell(ym, i))
  }

  /** `getDaysInMonth`: the three filling loops, producing exactly `Grid(ym)`. */
  method GetDaysInMonth(ym: YearMonth) returns (days: seq<CalendarDay>)
    requires ValidMonth(ym)
    ensures days == Grid(ym)
  {
    var daysInMonth := DaysInMonth(ym.year, ym.month);
    var startingDayOfWeek := DayOfWeek(FirstOf(ym));
    days := [];

    var prev := AddMonths(ym, -1);
    var prevMonthDays := DaysInMonth(prev.year, prev.month);
    var i := startingDayOfWeek - 1;
    while i >= 0
      invariant -1 <= i < startingDayOfWeek
      invariant |days| == startingDayOfWeek - 1 - i
      invariant forall k :: 0 <= k < |days| ==> days[k] == Cell(ym, k)
    {
      days := days + [CalendarDay(prevMonthDays - i, false, Date(prev.year, prev.month, prevMonthDays - i))];
      i := i - 1;
    }

    var day := 1;
    while day <= daysInMonth
      invariant 1 <= day <= daysInMonth + 1
      invariant |days| == startingDayOfWeek + day - 1
      invariant forall k :: 0 <= k < |days| ==> days[k] == Cell(ym, k)
    {
      days := days + [CalendarDay(day, true, Date(ym.year, ym.month, day))];
      day := day + 1;
    }

    var next := AddMonths(ym, 1);
    var remainingDays := GridSize - |days|;
    day := 1;
    while day <= remainingDays
      invariant 1 <= day <= remainingDays + 1
      invariant |days| == startingDayOfWeek + daysInMonth + day - 1
      invariant forall k :: 0 <= k < |days| ==> days[k] == Cell(ym, k)
    {
      days := days + [CalendarDay(day, false, Date(next.year, next.month, day))];
      day := day + 1;
    }
  }

  /**
   * Cell `i` of the grid, region by region: with `s` the weekday of day 1 and
   * `n` the month's length, cells below `s` are the last days of the
   * previous month (December of the year before when `ym` is January), the
   * next `n` are days 1..n, and the rest are the next month numbered from 1
   * (January of the next year after December).
   */
  lemma GridCell(ym: YearMonth, i: int)
    requires ValidMonth(ym) && 0 <= i < GridSize
    ensures var c, s, n := Grid(ym)[i], LeadingCount(ym), MonthLength(ym);
      var prev, next := PrevMonth(ym), NextMonth(ym);
      if i < s then
        c == CalendarDay(DaysInMonth(prev.year, prev.month) - s + 1 + i, false,
                         Date(prev.year, prev.month, DaysInMonth(prev.year, prev.month) - s + 1 + i))
      else if i < s + n then
        c == CalendarDay(i - s + 1, true, Date(ym.year, ym.month, i - s + 1))
      else
        c == CalendarDay(i - s - n + 1, false, Date(next.year, next.month, i - s - n + 1))
  {
    AddMonthsNeighbours(ym);
  }

  /**
   * The grid's three parts: `s` previous-month cells with `s` the weekday of
   * day 1, their day numbers rising to the previous month's last day; one
   * contiguous run of days 1..n marked current; and at least five
   * next-month cells numbered from 1.
   */
  lemma GridParts(ym: YearMonth)
    requires ValidMonth(ym)
    ensures var g, s, n := Grid(ym), LeadingCount(ym), MonthLength(ym);
      var prev, next := PrevMonth(ym), NextMonth(ym);
      var prevLast := DaysInMonth(prev.year, prev.month);
      && s == DayOfWeek(FirstOf(ym)) && s <= 6
      && GridSize - s - n >= 5
      && (s > 0 ==> g[s - 1].day == prevLast)
      && (forall i :: 0 <= i < GridSize ==> (g[i].isCurrentMonth <==> s <= i < s + n))
      && (forall i :: 0 <= i < s ==>
            g[i].day == prevLast - s + 1 + i && g[i].date == Date(prev.year, prev.month, g[i].day))
      && (forall i :: s <= i < s + n ==>
            g[i].day == i - s + 1 && g[i].date == Date(ym.year, ym.month, g[i].day))
      && (forall i :: s + n <= i < GridSize ==>
            g[i].day == i - s - n + 1 && g[i].date == Date(next.year, next.month, g[i].day))
  {
    forall i | 0 <= i < GridSize {
      GridCell(ym, i);
    }
  }

  lemma ModCancel(a: int, i: int)
    ensures (a - a % 7 + i) % 7 == i % 7
  {
  }

  /** A day of month `ym` lies `day - 1` days after the first of that month. */
  lemma DayNumberInMonth(ym: YearMonth, day: int)
    requires ValidMonth(ym)
    ensures DayNumber(Date(ym.year, ym.month, day)) == DayNumber(FirstOf(ym)) + day - 1
  {
  }

  /** One cell's date lies `i - s` days after the first of the month, `s` the number of leading cells. */
  lemma CellDayNumber(ym: YearMonth, i: int)
    requires ValidMonth(ym) && 0 <= i < GridSize
    ensures ValidDate(Grid(ym)[i].date)
    ensures Grid(ym)[i].day == Grid(ym)[i].date.day
    ensures DayNumber(Grid(ym)[i].date) == DayNumber(FirstOf(ym)) - LeadingCount(ym) + i
  {
    var c, s, n := Grid(ym)[i], LeadingCount(ym), MonthLength(ym);
    GridCell(ym, i);
    if i < s {
      var prev := PrevMonth(ym);
      NextMonthStart(prev);
      assert NextMonth(prev) == ym;
      DayNumberInMonth(prev, c.day);
    } else if i < s + n {
      DayNumberInMonth(ym, c.day);
    } else {
      NextMonthStart(ym);
      DayNumberInMonth(NextMonth(ym), c.day);
    }
  }

  /** One cell is a valid date, shows its own day of the month, and falls on weekday `i % 7`. */
  lemma CellConsecutive(ym: YearMonth, i: int)
    requires ValidMonth(ym) && 0 <= i < GridSize
    ensures var c := Grid(ym)[i];
      && ValidDate(c.date)
      && c.day == c.date.day
      && DayNumber(c.date) == DayNumber(FirstOf(ym)) - LeadingCount(ym) + i
      && DayOfWeek(c.date) == i % 7
  {
    CellDayNumber(ym, i);
    ModCancel(DayNumber(FirstOf(ym)) + 6, i);
  }

  /**
   * The grid is 42 consecutive valid days starting on a Sunday: cell `i`
   * lies `i` days after the Sunday on or before the first, falls on weekday
   * `i % 7`, and shows its own day of the month.
   */
  lemma GridConsecutive(ym: YearMonth)
    requires ValidMonth(ym)
    ensures forall i :: 0 <= i < GridSize ==>
      && ValidDate(Grid(ym)[i].date)
      && Grid(ym)[i].day == Grid(ym)[i].date.day
      && DayNumber(Grid(ym)[i].date) == DayNumber(FirstOf(ym)) - LeadingCount(ym) + i
      && DayOfWeek(Grid(ym)[i].date) == i % 7
  {
    forall i | 0 <= i < GridSize {
      CellConsecutive(ym, i);
    }
  }

  /** A cell is marked current exactly when its date lies in the displayed month. */
  lemma GridCurrentMonthIff(ym: YearMonth)
    requires ValidMonth(ym)
    ensures forall i :: 0 <= i < GridSize ==>
      (Grid(ym)[i].isCurrentMonth <==> YearMonth(Grid(ym)[i].date.year, Grid(ym)[i].date.month) == ym)
  {
    forall i | 0 <= i < GridSize {
      GridCell(ym, i);
    }
  }

  /** Every cell's date lies within a year of the displayed month's year. */
  lemma GridYears(ym: YearMonth)
    requires ValidMonth(ym)
    ensures forall i :: 0 <= i < GridSize ==> ym.year - 1 <= Grid(ym)[i].date.year <= ym.year + 1
  {
    forall i | 0 <= i < GridSize {
      GridCell(ym, i);
    }
  }

  /** Two distinct cells never carry the same date. */
  lemma GridDatesDistinct(ym: YearMonth, i: int, j: int)
    requires ValidMonth(ym)
    requires 0 <= i < GridSize && 0 <= j < GridSize
    ensures Grid(ym)[i].date == Grid(ym)[j].date <==> i == j
  {
    CellConsecutive(ym, i);
    CellConsecutive(ym, j);
  }

  /** Number of cells marked as belonging to the displayed month. */
  function CountCurrent(cells: seq<CalendarDay>): nat {
    if |cells| == 0 then 0
    else CountCurrent(cells[..|cells| - 1]) + (if cells[|cells| - 1].isCurrentMonth then 1 else 0)
  }

  /** When the marked cells are exactly the index range [lo, hi), there are hi - lo of them. */
  lemma {:induction false} CountCurrentRange(cells: seq<CalendarDay>, lo: int, hi: int)
    requires 0 <= lo <= hi <= |cells|
    requires forall i :: 0 <= i < |cells| ==> (cells[i].isCurrentMonth <==> lo <= i < hi)
    ensures CountCurrent(cells) == hi - lo
  {
    if |cells| > 0 {
      var last := |cells| - 1;
      var init := cells[..last];
      var lo', hi' := if lo > last then last else lo, if hi > last then last else hi;
      assert forall i :: 0 <= i < |init| ==> init[i] == cells[i];
      CountCurrentRange(init, lo', hi');
    }
  }

  /** The grid marks exactly as many cells current as the month has days (28, 29, 30 or 31). */
  lemma GridCurrentCount(ym: YearMonth)
    requires ValidMonth(ym)
    ensures CountCurrent(Grid(ym)) == DaysInMonth(ym.year, ym.month)
  {
    forall i | 0 <= i < GridSize {
      GridCell(ym, i);
    }
    CountCurrentRange(Grid(ym), LeadingCount(ym), LeadingCount(ym) + MonthLength(ym));
  }

  /** February 2024: Thursday the 1st, so 4 January cells, 29 February cells and 9 March cells. */
  lemma February2024()
    ensures LeadingCount(YearMonth(2024, 2)) == 4
    ensures MonthLength(YearMonth(2024, 2)) == 29
    ensures TrailingCount(YearMonth(2024, 2)) == 9
    ensures Grid(YearMonth(2024, 2))[0] == CalendarDay(28, false, Date(2024, 1, 28))
    ensures Grid(YearMonth(2024, 2))[4] == CalendarDay(1, true, Date(2024, 2, 1))
    ensures Grid(YearMonth(2024, 2))[41] == CalendarDay(9, false, Date(2024, 3, 9))
  {
    var ym := YearMonth(2024, 2);
    WeekdayAnchors();
    assert FirstOf(ym) == Date(2024, 2, 1);
    assert LeadingCount(ym) == 4;
    assert MonthLength(ym) == 29;
    assert AddMonths(ym, -1) == YearMonth(2024, 1);
    assert AddMonths(ym, 1) == YearMonth(2024, 3);
    assert Grid(ym)[0] == Cell(ym, 0);
    assert Grid(ym)[4] == Cell(ym, 4);
    assert Grid(ym)[41] == Cell(ym, 41);
  }

  /** Stepping a month forward and back again rebuilds the same grid. */
  lemma GridStepRoundTrip(ym: YearMonth)
    requires ValidMonth(ym)
    ensures Grid(AddMonths(AddMonths(ym, 1), -1)) == Grid(ym)
  {
    AddMonthsCompose(ym, 1, -1);
  }

  /**
   * `getDaysInMonth` as written passes `getFullYear()` back to the `Date`
   * constructor, which reads years 0..99 as 1900..1999.
   */
  function GridAsWritten(ym: YearMonth): seq<CalendarDay>
    requires ValidMonth(ym)
  {
    Grid(YearMonth(ConstructorYear(ym.year), ym.month))
  }

  /**
   * For December of year 99 the as-written grid shows December 1999, while
   * the grid of the displayed month holds no date of 1999.
   */
  lemma TwoDigitYearGrid()
    ensures GridAsWritten(YearMonth(99, 12))[3] == CalendarDay(1, true, Date(1999, 12, 1))
    ensures forall i :: 0 <= i < GridSize ==> Grid(YearMonth(99, 12))[i].date.year != 1999
  {
    var ym := YearMonth(99, 12);
    var shown := YearMonth(1999, 12);
    assert DaysBeforeYear(1999) == 730120;
    assert DayNumber(FirstOf(shown)) == 730454;
    assert LeadingCount(shown) == 3;
    GridCell(shown, 3);
    GridYears(ym);
  }
}
