/**
 * The dashboard's pure logic: looking up a calendar cell's work orders,
 * truncating them for the cell, deriving the stats cards and the recent
 * orders panel from a fetch, stepping the displayed month, and colouring a
 * work order by its status.
 */
module Dashboard {
  import opened Wrappers
  import opened Calendar
  import IsoDate
  import opened MonthGrid

  /** A work order as the API returns it; absent optional fields are `None`. */
  datatype WorkOrder = WorkOrder(
    id: int,
    title: string,
    status: Option<string>,
    scheduledDate: Option<string>,
    scheduledTime: Option<string>,
    clientName: Option<string>,
    technicianName: Option<string>)

  /** A technician, material or client row; only how many there are matters here. */
  datatype Entry = Entry(id: int)

  /** The four cards' figures; `None` is `undefined`, the `.length` of a body that is not a list. */
  datatype Stats = Stats(technicians: Option<nat>, workOrders: Option<nat>, materials: Option<nat>, clients: Option<nat>)

  /** The dashboard component's state. */
  datatype DashboardState = DashboardState(
    stats: Stats,
    recentOrders: seq<WorkOrder>,
    orders: seq<WorkOrder>,
    currentMonth: Date)

  /**
   * A parsed response body. `fetch` does not reject on an HTTP error status,
   * so a 401 or 500 answer arrives as its JSON error body. `Array` is the list
   * the API sends on success; `NonArray` is any other JSON object, number or
   * boolean (such as `{ "error": ... }`), whose `.length` is undefined and
   * which has no `.slice`; `Null` is a `null` body, on which reading `.length`
   * throws.
   */
  datatype Body<T> = Array(items: seq<T>) | NonArray | Null

  /**
   * How the four joined requests settled: every request answered with a
   * parsed body, or one of them was rejected (network failure, a body that is
   * not JSON), which the `catch` swallows before any setter runs.
   */
  datatype FetchOutcome =
    | Responded(technicians: Body<Entry>, workOrders: Body<WorkOrder>, materials: Body<Entry>, clients: Body<Entry>)
    | FetchFailed

  /** Some body is `null`, so the `.length` reads throw before `setStats`. */
  predicate ReadsNull(outcome: FetchOutcome) {
    outcome.Responded?
    && (outcome.technicians.Null? || outcome.workOrders.Null? || outcome.materials.Null? || outcome.clients.Null?)
  }

  /** The fetch the dashboard is written for: all four bodies are lists. */
  predicate Succeeded(outcome: FetchOutcome) {
    outcome.Responded?
    && outcome.technicians.Array? && outcome.workOrders.Array? && outcome.materials.Array? && outcome.clients.Array?
  }

  /** `body.length` on a body that is not `null`: the list's length, or undefined. */
  function Length<T>(b: Body<T>): Option<nat>
    requires !b.Null?
  {
    if b.Array? then Some(|b.items|) else None
  }

  /** A stats card shows the length of a list body and `undefined` for any other object. */
  predicate CardShows<T>(card: Option<nat>, b: Body<T>) {
    && (b.Array? ==> card == Some(|b.items|))
    && (b.NonArray? ==> card == None)
  }

  /** The state before the first fetch completes; `today` stands for `new Date()`. */
  function InitialState(today: Date): (s: DashboardState)
    ensures s.stats == Stats(Some(0), Some(0), Some(0), Some(0))
    ensures s.recentOrders == [] && s.orders == []
    ensures s.currentMonth == today
  {
    DashboardState(Stats(Some(0), Some(0), Some(0), Some(0)), [], [], today)
  }

  /** The orders scheduled under the text `key`, in list order. */
  function OrdersOn(orders: seq<WorkOrder>, key: string): (r: seq<WorkOrder>)
    ensures |r| <= |orders|
    ensures forall o :: o in r <==> o in orders && o.scheduledDate == Some(key)
  {
    if |orders| == 0 then []
    else
      var rest := OrdersOn(orders[1..], key);
      if orders[0].scheduledDate == Some(key) then [orders[0]] + rest else rest
  }

  /** `getOrdersForDate`: the orders whose `scheduled_date` is the cell's `YYYY-MM-DD` text. */
  function OrdersForDate(orders: seq<WorkOrder>, d: Date): (r: seq<WorkOrder>)
    requires ValidDate(d)
    ensures forall o :: o in r <==> o in orders && o.scheduledDate == Some(IsoDate.Format(d))
  {
    OrdersOn(orders, IsoDate.Format(d))
  }

  /**
   * The lookup is a stable filter: it distributes over concatenation, keeps
   * a matching order and drops any other, so its result is the matching
   * orders in their original relative order.
   */
  lemma {:induction false} OrdersOnConcat(a: seq<WorkOrder>, b: seq<WorkOrder>, key: string)
    ensures OrdersOn(a + b, key) == OrdersOn(a, key) + OrdersOn(b, key)
  {
    if |a| == 0 {
      assert a + b == b;
    } else {
      assert (a + b)[1..] == a[1..] + b;
      OrdersOnConcat(a[1..], b, key);
    }
  }

  lemma OrdersOnSingle(o: WorkOrder, key: string)
    ensures OrdersOn([o], key) == if o.scheduledDate == Some(key) then [o] else []
  {
    assert [o][1..] == [];
  }

  /**
   * No order is listed under two different cells of a grid: cell dates are
   * distinct and distinct dates have distinct texts.
   */
  lemma OrderInOneCell(ym: YearMonth, orders: seq<WorkOrder>, o: WorkOrder, i: int, j: int)
    requires ValidMonth(ym)
    requires 0 <= i < GridSize && 0 <= j < GridSize
    ensures o in OrdersForDate(orders, Grid(ym)[i].date) && o in OrdersForDate(orders, Grid(ym)[j].date)
      ==> i == j
  {
    var di, dj := Grid(ym)[i].date, Grid(ym)[j].date;
    IsoDate.FormatInjective(di, dj);
    GridDatesDistinct(ym, i, j);
  }

  /** An order without a `scheduled_date` is listed under no date at all. */
  lemma UndatedOrderInNoCell(orders: seq<WorkOrder>, o: WorkOrder, d: Date)
    requires ValidDate(d) && o.scheduledDate.None?
    ensures o !in OrdersForDate(orders, d)
  {
  }

  /** What a calendar cell shows of its orders: at most three, and how many more exist. */
  datatype CellPreview = CellPreview(shown: seq<WorkOrder>, hidden: nat)

  /** `dayOrders.slice(0, 3)` and the "+k más" count shown when there are more than three. */
  function Preview(dayOrders: seq<WorkOrder>): (p: CellPreview)
    ensures |p.shown| == if |dayOrders| < 3 then |dayOrders| else 3
    ensures |p.shown| + p.hidden == |dayOrders|
    ensures p.shown == dayOrders[..|p.shown|]
    ensures p.hidden > 0 <==> |dayOrders| > 3
    ensures |dayOrders| <= 3 ==> p.shown == dayOrders
  {
    if |dayOrders| <= 3 then CellPreview(dayOrders, 0)
    else CellPreview(dayOrders[..3], |dayOrders| - 3)
  }

  /** One rendered cell: its grid entry and the preview of its orders. */
  datatype CellView = CellView(cell: CalendarDay, preview: CellPreview)

  /** The calendar as rendered for the displayed month: every grid cell with its orders. */
  function CalendarView(s: DashboardState): (v: seq<CellView>)
    requires ValidDate(s.currentMonth)
    ensures |v| == GridSize
    ensures forall i :: 0 <= i < GridSize ==>
      var cell := Grid(YearMonth(s.currentMonth.year, s.currentMonth.month))[i];
      v[i].cell == cell && v[i].preview == Preview(OrdersForDate(s.orders, cell.date))
  {
    var ym := YearMonth(s.currentMonth.year, s.currentMonth.month);
    seq(GridSize, i requires 0 <= i < GridSize =>
      CellView(Grid(ym)[i], Preview(OrdersForDate(s.orders, Grid(ym)[i].date))))
  }

  /** Every order a cell shows is scheduled on that cell's date, and it shows them in list order. */
  lemma CalendarViewShowsOwnOrders(s: DashboardState, i: int)
    requires ValidDate(s.currentMonth) && 0 <= i < GridSize
    ensures var c := CalendarView(s)[i];
      ValidDate(c.cell.date)
      && c.preview.shown == OrdersForDate(s.orders, c.cell.date)[..|c.preview.shown|]
      && forall o :: o in c.preview.shown ==>
           o in s.orders && o.scheduledDate == Some(IsoDate.Format(c.cell.date))
  {
  }

  /** Before the first fetch settles, every cell of the calendar shows no orders. */
  lemma InitialCalendarEmpty(today: Date, i: int)
    requires ValidDate(today) && 0 <= i < GridSize
    ensures CalendarView(InitialState(today))[i].preview == CellPreview([], 0)
  {
  }

  /** `ordersData.slice(0, 5)`: the first five orders, or all of them when there are fewer. */
  function RecentOrders(orders: seq<WorkOrder>): (r: seq<WorkOrder>)
    ensures |r| == if |orders| < 5 then |orders| else 5
    ensures forall i :: 0 <= i < |r| ==> r[i] == orders[i]
  {
    orders[..if |orders| < 5 then |orders| else 5]
  }

  /**
   * The state after `fetchStats` settles. A rejected request or a `null` body
   * leaves the state as it was. Otherwise `setStats` runs first: each card is
   * its list's length, or undefined for a body that is not a list. Then, when
   * the work-order body is a list, the recent panel gets its first min(5, n)
   * orders and the calendar the whole list; when it is not, `slice` throws
   * and both keep their previous contents under the new stats.
   */
  function ApplyFetch(s: DashboardState, outcome: FetchOutcome): (s': DashboardState)
    ensures outcome.FetchFailed? || ReadsNull(outcome) ==> s' == s
    ensures outcome.Responded? && !ReadsNull(outcome) ==>
      && CardShows(s'.stats.technicians, outcome.technicians)
      && CardShows(s'.stats.workOrders, outcome.workOrders)
      && CardShows(s'.stats.materials, outcome.materials)
      && CardShows(s'.stats.clients, outcome.clients)
    ensures outcome.Responded? && outcome.workOrders.Array? && !ReadsNull(outcome) ==>
      var list := outcome.workOrders.items;
      && s'.orders == list
      && |s'.recentOrders| == (if |list| < 5 then |list| else 5)
      && (forall i :: 0 <= i < |s'.recentOrders| ==> s'.recentOrders[i] == list[i])
    ensures outcome.Responded? && outcome.workOrders.NonArray? && !ReadsNull(outcome) ==>
      s'.recentOrders == s.recentOrders && s'.orders == s.orders
    ensures s'.currentMonth == s.currentMonth
  {
    match outcome
    case FetchFailed => s
    case Responded(techs, ordersData, mats, clients) =>
      if techs.Null? || ordersData.Null? || mats.Null? || clients.Null? then s
      else
        var counted := s.(stats := Stats(Length(techs), Length(ordersData), Length(mats), Length(clients)));
        if ordersData.Array? then
          counted.(recentOrders := RecentOrders(ordersData.items), orders := ordersData.items)
        else counted
  }

  /**
   * A fetch whose four bodies are lists replaces the derived state wholesale:
   * two states that receive it agree on everything but the displayed month.
   */
  lemma ApplyFetchWholesale(s1: DashboardState, s2: DashboardState, outcome: FetchOutcome)
    requires Succeeded(outcome)
    ensures ApplyFetch(s1, outcome).(currentMonth := s2.currentMonth) == ApplyFetch(s2, outcome)
  {
  }

  /** Applying the same outcome twice is the same as once, whatever the outcome. */
  lemma ApplyFetchIdempotent(s: DashboardState, outcome: FetchOutcome)
    ensures ApplyFetch(ApplyFetch(s, outcome), outcome) == ApplyFetch(s, outcome)
  {
  }

  /**
   * An error object from the work-orders endpoint, with the other three
   * lists received, updates the cards but keeps the previous order lists: the
   * work-orders card goes blank while the calendar still shows old orders.
   */
  lemma ErrorBodyPartialUpdate(s: DashboardState, techs: seq<Entry>, mats: seq<Entry>, clients: seq<Entry>)
    ensures var s' := ApplyFetch(s, Responded(Array(techs), NonArray, Array(mats), Array(clients)));
      && s'.stats == Stats(Some(|techs|), None, Some(|mats|), Some(|clients|))
      && s'.orders == s.orders && s'.recentOrders == s.recentOrders
  {
  }

  /** `changeMonth(direction)`: the first of the month `direction` months away. */
  function ChangeMonth(d: Date, direction: int): (r: Date)
    ensures r.day == 1 && 1 <= r.month <= 12
    ensures MonthIndex(YearMonth(r.year, r.month)) == MonthIndex(YearMonth(d.year, d.month)) + direction
  {
    var ym := AddMonths(YearMonth(d.year, d.month), direction);
    Date(ym.year, ym.month, 1)
  }

  /** A step forward and a step back land on the first of the month started from. */
  lemma ChangeMonthRoundTrip(d: Date, direction: int)
    requires 1 <= d.month <= 12
    ensures ChangeMonth(ChangeMonth(d, direction), -direction) == Date(d.year, d.month, 1)
  {
    AddMonthsCompose(YearMonth(d.year, d.month), direction, -direction);
  }

  /** Stepping one month forward or back follows the calendar's rollover months. */
  lemma ChangeMonthNeighbours(d: Date)
    requires 1 <= d.month <= 12
    ensures var next := NextMonth(YearMonth(d.year, d.month));
      ChangeMonth(d, 1) == Date(next.year, next.month, 1)
    ensures var prev := PrevMonth(YearMonth(d.year, d.month));
      ChangeMonth(d, -1) == Date(prev.year, prev.month, 1)
  {
    AddMonthsNeighbours(YearMonth(d.year, d.month));
  }

  /** The dashboard state after a month button; only the displayed month changes. */
  function StepMonth(s: DashboardState, direction: int): (s': DashboardState)
    ensures s' == s.(currentMonth := s'.currentMonth)
    ensures s'.currentMonth.day == 1 && ValidDate(s'.currentMonth)
    ensures MonthIndex(YearMonth(s'.currentMonth.year, s'.currentMonth.month))
         == MonthIndex(YearMonth(s.currentMonth.year, s.currentMonth.month)) + direction
  {
    s.(currentMonth := ChangeMonth(s.currentMonth, direction))
  }

  /** A month button and the opposite one bring the dashboard back to the first of the month it showed. */
  lemma StepMonthRoundTrip(s: DashboardState, direction: int)
    requires 1 <= s.currentMonth.month <= 12
    ensures StepMonth(StepMonth(s, direction), -direction)
         == s.(currentMonth := Date(s.currentMonth.year, s.currentMonth.month, 1))
  {
    ChangeMonthRoundTrip(s.currentMonth, direction);
  }

  /**
   * `changeMonth` as written hands `getFullYear()` back to the `Date`
   * constructor, which reads years 0..99 as 1900..1999.
   */
  function ChangeMonthAsWritten(d: Date, direction: int): Date {
    var ym := MakeMonth(ConstructorYear(d.year), d.month - 1 + direction);
    Date(ym.year, ym.month, 1)
  }

  /** From December of year 99 the previous-month button lands in November 1999, not of year 99. */
  lemma TwoDigitYearChangeMonth()
    ensures ChangeMonthAsWritten(Date(99, 12, 1), -1) == Date(1999, 11, 1)
    ensures ChangeMonth(Date(99, 12, 1), -1) == Date(99, 11, 1)
  {
  }

  /** The colour buckets of a work order's badge. */
  datatype Colour = Green | Blue | Gray | Red

  /** The badge's Tailwind class for each bucket. */
  function ColourClass(c: Colour): string {
    match c
    case Green => "bg-green-500"
    case Blue => "bg-blue-500"
    case Gray => "bg-gray-400"
    case Red => "bg-red-500"
  }

  /** `statusColor`: three named statuses get their own colour and anything else, absent included, is red. */
  function StatusColour(status: Option<string>): (c: Colour)
    ensures c == Green <==> status == Some("completed")
    ensures c == Blue <==> status == Some("in_progress")
    ensures c == Gray <==> status == Some("cancelled")
    ensures c == Red <==> status !in {Some("completed"), Some("in_progress"), Some("cancelled")}
  {
    match status
    case Some("completed") => Green
    case Some("in_progress") => Blue
    case Some("cancelled") => Gray
    case _ => Red
  }

  /** The calendar's legend: label, the status it stands for, and its colour. */
  const Legend: seq<(string, string, Colour)> := [
    ("Pendiente", "pending", Red),
    ("En Progreso", "in_progress", Blue),
    ("Completada", "completed", Green),
    ("Cancelada", "cancelled", Gray)
  ]

  /**
   * Badges agree with the legend: each of the four statuses gets the colour
   * its legend entry shows, and the four legend colours are distinct, so a
   * badge's colour tells the known status apart.
   */
  lemma StatusColourMatchesLegend()
    ensures forall k :: 0 <= k < |Legend| ==> StatusColour(Some(Legend[k].1)) == Legend[k].2
    ensures forall k, l :: 0 <= k < l < |Legend| ==> Legend[k].2 != Legend[l].2
    ensures forall k, l :: 0 <= k < l < |Legend| ==> ColourClass(Legend[k].2) != ColourClass(Legend[l].2)
  {
  }
}
