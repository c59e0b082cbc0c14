# Class calendar: event store and month grid

A model of a browser calendar widget. Visitors see a month grid with published
events. A single operator, after a password check, can add draft ("pending")
events, edit and delete drafts and published events, and publish all drafts at
once. Published events are saved to a browser storage slot; drafts live only in
the session.

The model has five modules:

- `Gregorian`: proleptic Gregorian arithmetic. It stands in for the two host
  date calls of the grid: the length of a month, and the weekday of its first
  day.
- `DateKeys`: the date key `"<year>-<month+1>-<day>"` in plain decimal with no
  zero padding. A parser for the same format shows that a key identifies its
  date.
- `Events`: the stores as values (`map<string, seq<Event>>`), with the
  add/replace/remove/publish operations as functions and their properties as
  lemmas.
- `CalendarView`: the grid as a sequence of cell descriptors. It has headers,
  blanks, and day cells with their entries and actions. `Grid` is the
  specification. `RenderCalendar` builds the grid with the page's counted loops
  and is proved to produce `Grid`.
- `CalendarApp`: the application object as a class. Its fields are `isAdmin`,
  `currentMonth`, `currentYear`, `events`, `pendingEvents` and `stored`, the
  storage slot `calendarEvents`. Its methods update the stores in place. The
  class invariant `Valid()` says two things:
  - no store holds an empty list;
  - the published store always equals what the storage slot would load.

Answers to the prompt and confirm dialogs are method parameters
(`Option<string>`, `bool`). A prompt answer is acted on only when it is
`Truthy`: neither cancelled nor empty. A whitespace-only answer is truthy.

Notes on faithfulness:

- The host `Date` constructor reads a year from 0 to 99 as 1900 plus that
  year. `CalendarView.HostYear` models this. Day counts and weekdays use the
  adjusted year; date keys use the year as given.
- `splice(index, 1)` with an index past the end removes nothing.
  `Events.Splice` models that, and the delete methods accept any non-negative
  index.
- Editing reads the event at the index before prompting, so the edit methods
  require the date to be present and the index to be in range.
- Deleting touches the list only after confirmation, so the delete methods
  require the date only when `confirmed` is true.
- `CalendarView.GridCommandsApplicable` proves that every action the grid
  offers meets these requirements.

`CalendarApp.MeetingScenario` drives the class through one session: log in, add "Meeting" on 15 March 2024, publish, log out, and reload. Along the way it asserts the state after each step, and it has no contract of its own.

## Model

| member | source | states |
|---|---|---|
| `Gregorian.DaysInMonth` | script.js:89 | definition of the length of a month of a full year, as the host computes it once the year is fixed (see `MonthLength`): the common-year table, plus one day for February in a leap year |
| `Gregorian.MonthsTotal` | script.js:89 | definition of the total length of a year's first k months |
| `Gregorian.YearLength` | script.js:89 | definition of a year's length as its twelve month lengths added up |
| `Gregorian.DaysBeforeStep` | script.js:89 | proof step: consecutive entries of the days-before table differ by the month's common-year length |
| `Gregorian.DaysBeforeIsMonthsTotal` | script.js:89 | the days-before table agrees with adding up the month lengths, leap day included |
| `Gregorian.YearLengthRule` | script.js:89 | a year has 365 or 366 days, 366 exactly in leap years |
| `Gregorian.Weekday` | script.js:90 | the weekday of a date of a full year, as the host computes it: in 0..6, 0 = Sunday |
| `Gregorian.FirstWeekday` | script.js:90 | the weekday of day 1 of a month of a full year, in 0..6 |
| `Gregorian.DaysInMonthRange` | script.js:89 | a month has 28..31 days; February has 29 exactly in leap years and 28 otherwise; 30 exactly for April, June, September, November |
| `Gregorian.MonthsFillYear` | script.js:89 | the days before December and the days of December make up the whole year, so the days-before table ends where the year does |
| `Gregorian.DivStep` | script.js:89 | proof step for `YearSpan`, a general division fact: stepping `n` down by one changes `n / k` exactly when `k` divides `n`, for k = 4, 100, 400 |
| `Gregorian.YearSpan` | script.js:89 | the days between 1 January of a year and of the next equal the year's length, so the leap-day count matches the leap-year rule |
| `Gregorian.LastDayIsFollowedByFirst` | script.js:89 | the last day `DaysInMonth(y, m)` of a month is immediately followed by day 1 of the next month (next year after December), which is the date "day 0 of month m + 1" names |
| `Gregorian.NextWeekday` | script.js:90 | consecutive days have consecutive weekdays |
| `Gregorian.FirstWeekdayOfNextMonth` | script.js:89-90 | the first weekday of the next month is the first weekday of this month plus its length, modulo 7 |
| `Gregorian.ShiftWeek` | script.js:90 | proof step for the weekday lemmas, a general fact: adding days to a weekday works modulo 7 |
| `Gregorian.ShiftBy400` | script.js:89-90 | proof step for the 400-year cycle, a general division fact: moving 400 on adds 400/k to the quotient by k and keeps the remainder, for k = 4, 100, 400 |
| `Gregorian.YearCycle` | script.js:89-90 | 400 years hold 146097 days |
| `Gregorian.LeapCycle` | script.js:89 | a year and the year 400 later are both leap or both common |
| `Gregorian.WholeWeeks` | script.js:90 | proof step for the 400-year cycle, a general fact: 146097 days are a whole number of weeks |
| `Gregorian.FourHundredYearCycle` | script.js:90 | 400 years later a date is 146097 days on and falls on the same weekday |
| `Gregorian.March2024` | script.js:89-90 | March 2024 has 31 days and starts on a Friday (5 blanks) |
| `DateKeys.DateKey` | script.js:113 | definition of the key `"${year}-${month + 1}-${day}"`, each number in plain decimal |
| `DateKeys.DigitChar` | script.js:113 | a digit value is written as a decimal digit character |
| `DateKeys.NatToString` | script.js:113 | definition of how the template literal writes a non-negative number: its decimal digits, most significant first |
| `DateKeys.IntToString` | script.js:113 | definition of how the template literal writes an integer: a `-` before the digits of a negative one |
| `DateKeys.NatToStringNoLeadingZero` | script.js:113 | no zero padding: a written number starts with `0` exactly when it is zero |
| `DateKeys.NatToStringDigits` | script.js:113 | a number is written as a non-empty string of decimal digits |
| `DateKeys.ParseIntToString` | script.js:113 | reading back a written integer, negative or not, gives the integer |
| `DateKeys.ParseNatToString` | script.js:113 | reading back the digits of a natural number gives the number |
| `DateKeys.SplitLastAt` | script.js:113 | splitting at the last separator recovers the two parts when the second has no separator |
| `DateKeys.DigitsHaveNoDash` | script.js:113 | a digit string contains no `-` |
| `DateKeys.ParseDateKeyOfDateKey` | script.js:113 | a date key reads back as the year, month and day it was made from |
| `DateKeys.DateKeyInjective` | script.js:113 | different dates have different keys |
| `DateKeys.DateKeyExample` | script.js:113 | 15 March 2024 has the key `"2024-3-15"` |
| `Events.Append` | script.js:160-163 | definition of adding an event: the date's list, created empty when absent, gains the event at the end |
| `Events.Replace` | script.js:173 | definition of editing, for the published store and likewise the drafts (line 184): the element at the index of the date's list becomes the new event |
| `Events.Remove` | script.js:191-194 | definition of deleting, for the published store and likewise the drafts (lines 202-205): the date's list is spliced, and the date dropped when its list becomes empty |
| `Events.Publish` | script.js:211-216 | definition of publishing: every date of either store gets its published list followed by its drafts |
| `Events.LookupPresent` | script.js:160-161 | in a store without empty lists, a date is present exactly when it has events |
| `Events.AppendSpec` | script.js:160-163 | adding puts the event at the end of the date's list, creating the list when absent; the other dates are unchanged; no empty list appears |
| `Events.ReplaceSpec` | script.js:173 | editing replaces exactly the element at the index; the length, the other indices and the other dates are unchanged |
| `Events.Splice` | script.js:191 | splicing one element shortens a list by one; past the end it changes nothing |
| `Events.SpliceShifts` | script.js:191 | splicing keeps the elements before the index, moves the later ones down by one, and loses exactly the removed element (as a multiset) |
| `Events.RemoveSpec` | script.js:191-194 | deleting splices the date's list; the date disappears exactly when its only event is deleted; other dates are unchanged; no empty list remains |
| `Events.RemoveLast` | script.js:192-193 | deleting the only event of a date removes the date |
| `Events.PublishSpec` | script.js:211-216 | after publishing, each date's list is its published list followed by its drafts; the dates are those of both stores; no empty list appears |
| `Events.PublishExtensional` | script.js:211-216 | a store with the dates of both stores, each holding its published list then its drafts, is the published result |
| `Events.PublishKeepsPublished` | script.js:215 | publishing loses no published event and keeps it ahead of the new ones; dates without drafts are unchanged |
| `Events.PublishKeepsPending` | script.js:215 | every draft is published under its date, in its order, after the date's published events |
| `Events.PublishNothing` | script.js:210-218 | publishing with no drafts leaves the published store as it is |
| `CalendarView.HostYear` | script.js:89-90 | definition of the host's two-digit year rule: a year from 0 to 99 is read as 1900 plus that year |
| `CalendarView.MonthLength` | script.js:89 | definition of `daysInMonth`: the month's length in the host's year |
| `CalendarView.LeadingBlanks` | script.js:90 | definition of `firstDay`: the weekday of day 1 in the host's year |
| `CalendarView.TwoDigitYear` | script.js:89 | February of year 0 has the 28 days of February 1900, though year 0 itself is leap |
| `CalendarView.DayCell` | script.js:108-154 | definition of one day cell: its number, its key, its published entries, and in admin mode its drafts and the add action |
| `CalendarView.Grid` | script.js:86-155 | definition of the whole grid: the headers, the blanks before day 1, then the day cells |
| `CalendarView.RenderCalendar` | script.js:86-155 | the header, blank and day loops build exactly `Grid` of the current state |
| `CalendarView.RenderHeaders` | script.js:93-99 | one header per weekday name, Sunday first |
| `CalendarView.RenderBlanks` | script.js:102-106 | the blank loop emits exactly `firstDay` blank cells |
| `CalendarView.RenderDays` | script.js:108-154 | the day loop emits one cell per day 1..N in order, each under the key of its date |
| `CalendarView.DaysSnoc` | script.js:108-154 | one more pass of the day loop appends the cell of the next day under its own key |
| `CalendarView.RenderDay` | script.js:108-154 | one day cell holds the published entries, then in admin mode the drafts and an add action |
| `CalendarView.RenderPublished` | script.js:114-130 | the published events become entries in list order, with edit/delete actions only in admin mode |
| `CalendarView.RenderPending` | script.js:133-145 | the drafts become entries marked `[待發佈]`, with edit/delete actions on the pending store |
| `CalendarView.GridLength` | script.js:89-108 | the grid has 7 headers, 0..6 blanks (the weekday of day 1) and 28..31 day cells, 35..44 cells in all |
| `CalendarView.GridPrefix` | script.js:93-106 | the first 7 cells are the weekday headers in order, and the next ones up to the first day are blanks |
| `CalendarView.GridDay` | script.js:108-113 | day d of the month is the cell after the headers, the blanks and days 1..d-1, and it carries day d and the key of its date |
| `CalendarView.DayOfDays` | script.js:108-113 | the k-th cell of the day loop is day k + 1 under its own key |
| `CalendarView.GridMarch2024` | script.js:89-113 | March 2024 gives 7 + 5 + 31 cells, and the 15th carries key `"2024-3-15"` |
| `CalendarView.GuestView` | script.js:114-130 | a guest sees the day's published events in list order, as labels with no actions, and no add action |
| `CalendarView.AdminPublished` | script.js:114-126 | in admin mode, published event j is entry j, with edit and delete actions on the published store at index j |
| `CalendarView.AdminDraft` | script.js:133-144 | in admin mode, draft j follows the published entries, marked `[待發佈]`, with edit and delete actions on the pending store at index j |
| `CalendarView.AdminView` | script.js:114-151 | the operator sees the published events, then the drafts marked as pending; every event has edit and delete actions at its own index; the day has an add action |
| `CalendarView.GuestGridIgnoresPending` | script.js:132-146 | the guest grid is the same whatever the pending store holds |
| `CalendarView.DayCellCommandsApplicable` | script.js:121-149 | every action of a day cell names a date and index that exist in the store it acts on |
| `CalendarView.GridCommandsApplicable` | script.js:108-154 | every action offered anywhere in the grid meets the precondition of its store operation |
| `CalendarView.DaysCommandsApplicable` | script.js:108-154 | every action in the day cells meets the precondition of its store operation |
| `CalendarView.MeetingDraft` | script.js:157-166 | adding "Meeting" to an empty pending store files it as the only draft of its date |
| `CalendarView.MeetingShownToGuest` | script.js:210-218 | once "Meeting" is published, a guest's March 2024 grid shows it on the 15th with no actions |
| `CalendarApp.Truthy` | script.js:159 | definition of a truthy prompt answer, as tested here and at lines 172 and 183: not cancelled and not empty |
| `CalendarApp.Loaded` | script.js:17-22 | definition of what loading finds: the saved map when the slot holds one, and the empty store otherwise |
| `CalendarApp.App.constructor` | script.js:2-22 | start-up: not admin, the given month and year, no drafts, and the published store is the saved one, or empty when nothing was saved |
| `CalendarApp.App.LoadEvents` | script.js:17-22 | the published store becomes the saved map when the slot holds one, and is kept otherwise |
| `CalendarApp.App.SaveEvents` | script.js:24-26 | the slot holds the published store |
| `CalendarApp.App.AddEvent` | script.js:157-166 | a truthy description is appended to the date's drafts; otherwise nothing changes; published events and the slot are untouched |
| `CalendarApp.App.EditEvent` | script.js:168-177 | a truthy description replaces the published event at the index and is saved; otherwise nothing changes |
| `CalendarApp.App.EditPendingEvent` | script.js:179-187 | a truthy description replaces the draft at the index; the published store and the slot are untouched |
| `CalendarApp.App.DeleteEvent` | script.js:189-198 | once confirmed, the published event is removed, an emptied date is dropped, and the result is saved; declined, nothing changes |
| `CalendarApp.App.DeletePendingEvent` | script.js:200-208 | once confirmed, the draft is removed and an emptied date is dropped; declined, nothing changes; the slot is untouched |
| `CalendarApp.App.PublishEvents` | script.js:210-221 | the published store becomes `Publish(old published, old drafts)`, the drafts are emptied, and the result is saved |
| `CalendarApp.App.MergePending` | script.js:211-216 | the loop over the drafted dates turns the published store into `Publish(old published, drafts)` |
| `CalendarApp.App.Login` | script.js:53-65 | admin mode is entered exactly on the password `admin123`; otherwise the flag is unchanged; the stores are untouched |
| `CalendarApp.App.Logout` | script.js:80-84 | admin mode is left and both stores, drafts included, are untouched |
| `CalendarApp.App.SelectMonth` | script.js:38-41 | the month on show becomes the selected one |

## Left out

- DOM construction and event wiring (`createElement`, `innerHTML`, `onclick`, `oncontextmenu`). The grid is modelled as cell descriptors and the handlers as `Command` values.
- The admin-controls panel (script.js:67-78) is not modelled; its two buttons are the calls `PublishEvents` and `Logout`. Nor is what a second login does to the page: the second panel's buttons share their ids with the first, so the new listeners go on the first panel's buttons, and one click there then publishes twice or logs out twice.
- The re-render after each operation. The page shows `CalendarView.Grid` of the new state, a function of the fields, so it is not repeated in every method.
- The colour pickers and the month-name list for the selector: configuration only.
- The `alert` messages and the text of the prompts and confirmations.
- `localStorage` and the JSON encoding. The slot is the field `stored`, holding the map itself. The constructor requires that a saved map has no empty lists, which holds for everything `SaveEvents` writes; a hand-edited slot with other content is not modelled.
- The host clock. The starting month and year are constructor parameters.
- Host time zones and the `Date` value range. The arithmetic is the proleptic Gregorian calendar. Years more than about 270,000 years from 1970, where the host date becomes invalid and the page would draw no day cells, are not treated.
- Password security: only the string comparison is modelled.
