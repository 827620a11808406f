# AC maintenance dashboard: calendar, order aggregation and session shell in Dafny

This project models the logic of a single-page administration front end for an
air-conditioning maintenance company. Two components are covered.

- The **dashboard** (`src/components/Dashboard.jsx`):
  - the 42-cell, Sunday-first month grid of `getDaysInMonth`;
  - the per-cell work-order lookup `getOrdersForDate` and the three-order cell preview;
  - the stats cards and "recent orders" panel derived after `fetchStats`;
  - month stepping with `changeMonth`;
  - the status-to-colour mapping `statusColor`.
- The **application shell** (`src/App.jsx`):
  - the session state: token, user, selected view and the online flag;
  - the login, logout, view-selection, `online` and `offline` transitions;
  - the choice between the login form and the shell, and which of the six screens the shell shows.

Everything is pure: immutable datatypes and total functions over `seq`, `map`
and `int`, with lemmas relating them.

## Modules

- `wrappers.dfy` — `Option`, for JavaScript's `null`/`undefined`.
- `calendar.dfy` (`Calendar`) — proleptic Gregorian arithmetic as JavaScript's `Date` does it:
  - leap years and month lengths;
  - a day count from 0000-01-01 and the weekday derived from it;
  - the month normalisation of the `Date` constructor (`MakeMonth`, `AddMonths`);
  - the constructor's two-digit-year rule (`ConstructorYear`).

  Months are numbered 1..12 (JavaScript uses 0..11). Years are unbounded astronomical years.
- `iso_date.dfy` (`IsoDate`) — the `YYYY-MM-DD` key, as `toISOString().split('T')[0]` writes it:
  - four digits for years 0..9999;
  - otherwise a sign and six digits;
  - a parser that inverts it.
- `month_grid.dfy` (`MonthGrid`) — the grid as a function of the month (`Grid`, via `Cell`), and the source's three filling loops (`GetDaysInMonth`), proved equal to it.
- `dashboard.dfy` (`Dashboard`) — work orders, the lookup, the cell preview, the fetch outcome, month stepping and status colours.
- `app.dfy` (`App`) — the session state machine:
  - storage is a key-to-value map;
  - browser events are `Event` values;
  - rendering is a `Screen` value.

Two points about the code that shape the model:

- `statusColor` compares the raw status string, with a catch-all for any other value. So `StatusColour` takes an optional string rather than an enumeration.
- `src/App.jsx` has no periodic API health check. The only connectivity signal is the browser's `online`/`offline` events.

## Model

| member | source | states |
|---|---|---|
| Calendar.DaysInMonth | src/components/Dashboard.jsx:45-46 | month length is 28..31, 29 exactly for February of a Gregorian leap year, and agrees with the ordinal-date table: each month fills the gap to the next month's start and December closes the year |
| Calendar.NextDayAdvances | src/components/Dashboard.jsx:47 | from every valid date the next date is valid, one day later in the day count, and one weekday later modulo 7, across month and year ends |
| Calendar.WeekdayAnchors | src/components/Dashboard.jsx:47 | the weekday function puts 1970-01-01 (JavaScript's epoch) and 2024-02-01 on a Thursday (index 4) |
| Calendar.DayOfWeek | src/components/Dashboard.jsx:47 | `getDay()` is a weekday index 0..6 (Sunday = 0) |
| Calendar.DayFromYearMatchesEcmaScript | src/components/Dashboard.jsx:47 | the model's day count from year 0, less the 719528 days before 1970, equals ECMAScript's own `DayFromYear` formula for every year |
| Calendar.WeekdayMatchesEcmaScript | src/components/Dashboard.jsx:47 | `getDay` equals ECMAScript's `WeekDay = (Day + 4) mod 7`, where `Day` is built from ECMAScript's `DayFromYear`, for every date |
| Calendar.MakeMonth | src/components/Dashboard.jsx:57 | `Date`'s month normalisation lands on a valid month exactly m months after January of year y, for any month argument m |
| Calendar.AddMonths | src/components/Dashboard.jsx:89 | the month k steps away is a valid month whose month index is the original's plus k |
| Calendar.AddMonthsNeighbours | src/components/Dashboard.jsx:57 | month − 1 and month + 1 normalise to the previous and next month: December of the year before for January, January of the next year for December |
| Calendar.AddMonthsCompose | src/components/Dashboard.jsx:88-90 | month steps compose additively, and a step followed by the opposite step returns to the original month |
| Calendar.NextMonthStart | src/components/Dashboard.jsx:52-78 | the first of the next month falls exactly one month length after the first of this month, so the grid's three parts join without gaps |
| MonthGrid.LeadingCount | src/components/Dashboard.jsx:47-59 | the number of previous-month cells is the weekday of day 1 and at most 6 |
| MonthGrid.TrailingCount | src/components/Dashboard.jsx:71-72 | `remainingDays` fills the grid to 42 and is at least 5, so it is never negative |
| MonthGrid.Cell | src/components/Dashboard.jsx:51-78 | every cell carries a valid date whose day of the month is the number the cell shows |
| MonthGrid.Grid | src/components/Dashboard.jsx:41-81 | the grid has exactly 42 cells, all dated validly |
| MonthGrid.GetDaysInMonth | src/components/Dashboard.jsx:41-81 | the three filling loops (previous month counting down, days 1..n, next month from 1) produce exactly the 42-cell grid |
| MonthGrid.GridCell | src/components/Dashboard.jsx:52-78 | cell i is, by region, day prevMonthDays − s + 1 + i of the previous month, day i − s + 1 of the month, or day i − s − n + 1 of the next month, with January/December rollover |
| MonthGrid.GridParts | src/components/Dashboard.jsx:47-78 | prefix length = weekday of day 1 (≤ 6); its cells are the last days of the previous month (year and month included), rising to its last day; the current cells are one contiguous run of days 1..n of the month itself; at least 5 cells of the next month numbered from 1 |
| MonthGrid.GridConsecutive | src/components/Dashboard.jsx:41-81 | the 42 cells are consecutive valid days starting on a Sunday: cell i lies i days after the grid's start, falls on weekday i mod 7, and shows its own day of the month |
| MonthGrid.GridCurrentMonthIff | src/components/Dashboard.jsx:62-68 | a cell is marked current exactly when its date lies in the displayed month (both directions) |
| MonthGrid.GridCurrentCount | src/components/Dashboard.jsx:62-68 | the number of cells marked current equals the month's length (28, 29, 30 or 31) |
| MonthGrid.GridDatesDistinct | src/components/Dashboard.jsx:57-76 | two cells carry the same date exactly when they are the same cell |
| MonthGrid.GridYears | src/components/Dashboard.jsx:57-76 | every cell's year is within one of the displayed year |
| MonthGrid.February2024 | src/components/Dashboard.jsx:41-81 | February 2024 has 4 January cells (from the 28th), 29 February cells starting at index 4, and 9 March cells ending with the 9th |
| MonthGrid.GridStepRoundTrip | src/components/Dashboard.jsx:88-92 | stepping a month forward and back again rebuilds the same grid |
| MonthGrid.CountCurrentRange | src/components/Dashboard.jsx:62-68 | when the marked cells are exactly an index range, their count is the range's length |
| MonthGrid.TwoDigitYearGrid | src/components/Dashboard.jsx:42-45 | the as-written grid for December of year 99 shows December 1999, while the corrected grid holds no date of 1999 (see Findings) |
| IsoDate.Format | src/components/Dashboard.jsx:84 | the key ends in a dash, two month digits, a dash and two day digits; a year in 0..9999 makes it exactly the 10-character `YYYY-MM-DD` with four year digits, and any other year is written with a leading `+` or `-` (expanded form, at least 13 characters) |
| IsoDate.FormatRoundTrip | src/components/Dashboard.jsx:84 | the `YYYY-MM-DD` text of every valid date parses back to that date |
| IsoDate.FormatInjective | src/components/Dashboard.jsx:84 | two valid dates have the same text exactly when they are the same date |
| IsoDate.FormatExample | src/components/Dashboard.jsx:84 | 2025-03-15 is written `2025-03-15` |
| IsoDate.DecimalValue | src/components/Dashboard.jsx:84 | the zero-padded decimal digits of n read back as n |
| Dashboard.InitialState | src/components/Dashboard.jsx:4-7 | before any fetch the four stats are 0, both order lists are empty, and the displayed month is today |
| Dashboard.InitialCalendarEmpty | src/components/Dashboard.jsx:6-7 | before the first fetch settles, every calendar cell shows no orders |
| Dashboard.OrdersOn | src/components/Dashboard.jsx:85 | the filter keeps exactly the orders whose `scheduled_date` equals the key, so an order with none is never kept, and never grows the list |
| Dashboard.OrdersForDate | src/components/Dashboard.jsx:83-86 | a cell's orders are exactly the orders scheduled under that cell date's `YYYY-MM-DD` text |
| Dashboard.OrdersOnConcat | src/components/Dashboard.jsx:85 | the lookup distributes over concatenation, so the result keeps the matching orders in their input order |
| Dashboard.OrdersOnSingle | src/components/Dashboard.jsx:85 | a one-order list yields that order when it matches and nothing otherwise |
| Dashboard.OrderInOneCell | src/components/Dashboard.jsx:83-86 | no order is listed under two different cells of the same month grid |
| Dashboard.UndatedOrderInNoCell | src/components/Dashboard.jsx:83-86 | an order without a `scheduled_date` is listed under no date |
| Dashboard.Preview | src/components/Dashboard.jsx:207-221 | a cell shows the first min(3, n) of its orders in order, and the "+k más" count k = n − 3 appears exactly when n > 3 |
| Dashboard.CalendarView | src/components/Dashboard.jsx:190-225 | the rendered calendar has 42 entries; entry i is grid cell i of the displayed month, with the preview of the orders on that cell's date |
| Dashboard.CalendarViewShowsOwnOrders | src/components/Dashboard.jsx:190-221 | every order a cell shows belongs to the fetched list, is scheduled on that cell's date, and appears in list order |
| Dashboard.RecentOrders | src/components/Dashboard.jsx:34 | the recent panel has min(5, n) orders, the first ones of the list in their original order |
| Dashboard.ApplyFetch | src/components/Dashboard.jsx:22-38 | a rejected request or a `null` body changes nothing. Otherwise each stats card is its body's list length, or undefined for an error object. A list of work orders gives the recent panel its first min(5, n) and the calendar the whole list. A non-list work-order body leaves both lists as they were under the new stats. The displayed month is never touched |
| Dashboard.ApplyFetchWholesale | src/components/Dashboard.jsx:28-35 | a fetch whose four bodies are lists replaces the derived state wholesale: the prior state does not matter |
| Dashboard.ApplyFetchIdempotent | src/components/Dashboard.jsx:22-38 | applying the same outcome twice equals applying it once, whatever the outcome |
| Dashboard.ErrorBodyPartialUpdate | src/components/Dashboard.jsx:28-34 | an error object from the work-orders endpoint blanks that card and updates the other three, while the previous order lists stay |
| Dashboard.ChangeMonth | src/components/Dashboard.jsx:88-90 | the new month is day 1 of a valid month exactly `direction` months away |
| Dashboard.ChangeMonthRoundTrip | src/components/Dashboard.jsx:88-90 | a step followed by the opposite step lands on day 1 of the original month |
| Dashboard.ChangeMonthNeighbours | src/components/Dashboard.jsx:162-177 | the previous and next buttons land on the first of the calendar's previous and next month, with year rollover |
| Dashboard.StepMonth | src/components/Dashboard.jsx:88-90 | a month button changes only the displayed month, to the valid first of the month `direction` months away |
| Dashboard.StepMonthRoundTrip | src/components/Dashboard.jsx:88-90 | "→" then "←" (or the reverse) returns the dashboard to the first of the month it showed, with everything else unchanged |
| Dashboard.TwoDigitYearChangeMonth | src/components/Dashboard.jsx:89 | as written, the previous-month button goes from December of year 99 to November 1999; corrected, to November of year 99 (see Findings) |
| Dashboard.StatusColour | src/components/Dashboard.jsx:98-105 | total mapping: `completed` → green, `in_progress` → blue, `cancelled` → gray (each an if-and-only-if), and every other status, absent included, → red |
| Dashboard.StatusColourMatchesLegend | src/components/Dashboard.jsx:229-245 | each legend entry's status gets the legend's colour, and the four legend colours and their classes are pairwise distinct |
| App.Init | src/App.jsx:13-16 | start-up selects the dashboard, keeps storage, takes the online flag given, reads back a stored token text and stored user, and reads no token or user when the key is absent (user defaults to null) |
| App.Login | src/App.jsx:31-36 | login sets token and user, stores them under `token` and `user`, and keeps every other storage entry, the selected view and the online flag |
| App.Logout | src/App.jsx:38-44 | logout clears token and user, removes exactly the two storage keys, keeps the rest, and resets the view to `dashboard` |
| App.SelectView | src/App.jsx:89 | a menu click sets the selected view to that entry's identifier and changes nothing else |
| App.SelectViewIdempotent | src/App.jsx:89 | selecting the selected view again changes nothing |
| App.Step | src/App.jsx:19-20 | the `online` event sets the flag true and `offline` sets it false, changing nothing else |
| App.ConnectivityBadge | src/App.jsx:19-59 | connectivity events never switch between the login form and the shell; when signed in the Offline badge appears after `offline` and disappears after `online` |
| App.Render | src/App.jsx:46-107 | the login form exactly without a usable token; otherwise the shell, whose badge shows exactly when offline and whose menu highlight and main area hold exactly the screens named by the current view |
| App.RenderBranches | src/App.jsx:46-61 | the login form shows exactly when the token is missing or empty; in the shell the Offline badge shows exactly when offline |
| App.ViewsNamed | src/App.jsx:102-107 | the main area renders exactly the screens whose identifier equals the selected view, and none when no screen has it |
| App.ExactlyOneView | src/App.jsx:89-107 | with one of the six views selected, the shell renders exactly that screen and highlights exactly that menu entry |
| App.ViewsNamedSingle | src/App.jsx:79-107 | over a menu without repeats, exactly one entry carries a given screen's identifier |
| App.ViewNameInjective | src/App.jsx:80-85 | the six view identifiers are pairwise distinct |
| App.InitEstablishes | src/App.jsx:15 | at start-up the selected view is one of the six screens |
| App.StepPreserves | src/App.jsx:31-44 | every event keeps the selected view one of the six screens |
| App.LoginSurvivesReload | src/App.jsx:13-14 | after a login, a reload reads back the same token and user from storage |
| App.LogoutSurvivesReload | src/App.jsx:13-14 | after a logout, a reload starts with no token and no user, on the login form |
| App.LoginLogoutStorage | src/App.jsx:34-42 | a logout after a login leaves storage as before, less the two session keys |

## Findings

| source | as written | input that shows it | evidently intended | confidence | as-written member | corrected member |
|---|---|---|---|---|---|---|
| src/components/Dashboard.jsx:89 | the displayed year goes back through the `Date` constructor, which reads years 0..99 as 1900..1999 | from 0099-12-01, direction −1 | 0099-11-01, one month back | not executed; the year rule is in ECMA-262's `Date` constructor (MakeFullYear); reached only by stepping back below year 100 | Dashboard.ChangeMonthAsWritten, shown by Dashboard.TwoDigitYearChangeMonth | Dashboard.ChangeMonth, proved by Dashboard.ChangeMonthRoundTrip |
| src/components/Dashboard.jsx:42-45 | `getDaysInMonth` passes `getFullYear()` back to the `Date` constructor, so a displayed year 0..99 is built as 1900..1999 | December of year 99 | the grid of December 0099 | not executed; same ECMA-262 rule; reached only by stepping back below year 100 | MonthGrid.GridAsWritten, shown by MonthGrid.TwoDigitYearGrid | MonthGrid.Grid, proved by MonthGrid.GridCurrentMonthIff |

## Left out

- Network I/O: the four requests, their join and the JSON decoding in `fetchStats`. The model takes the joined result as a `FetchOutcome` parameter: a parsed body per request (a list, another JSON value, or `null`), or a rejection.
- Dashboard.ApplyFetch: a body that is a JSON string is not modelled. A string has a `.length` and a `.slice`, so the source would store it as the order list; the model only distinguishes lists, `null` and values without `.length`.
- `src/components/Login.jsx`: the login form and its request. Its only effect on the model is the `LoggedIn` event.
- The screens other than the dashboard (`Technicians`, `WorkOrders`, `Materials`, `Clients`, `Schedule`). They are not part of this model; the shell only decides which one is rendered.
- The time-zone shift of `toISOString`. The source formats a local-midnight date through UTC, which moves the key one day back east of UTC. `IsoDate.Format` writes the local calendar date.
- The "today" highlight and the "Hoy" button. Both depend on the wall clock. `Dashboard.InitialState` takes today's date as a parameter.
- `localStorage` itself, event-listener registration and teardown, and React's scheduling of state updates. Storage is a map and events are transitions.
- `JSON.stringify`/`JSON.parse` of the user. It is treated as a lossless round trip, `UserJson(user)`.
- App.StoredUser: a `user` entry the application did not write is read as null, where `JSON.parse` of arbitrary text might return another value or throw.
- App.StoredToken: a `token` entry holding a user object's JSON is read as null, where the source would read its text.
- Stale fetch results. A fetch that completes after the user navigates away is not modelled, and neither is cancellation.
- The range limit of JavaScript's `Date` (about ±275,000 years); model years are unbounded. The two-digit-year rule of the `Date` constructor is modelled only in the Findings members.
- Markup, Tailwind classes beyond the four status colours, and the Spanish month and weekday labels.
