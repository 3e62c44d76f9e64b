# Expense tracker: storage and chart aggregation, modelled in Dafny

This project models the data logic of a small browser expense tracker. It has two parts.

**The per-user expense store** (`src/utils/storage.ts`). The browser's `localStorage` is a string-to-string map. In the model it is the `items` field of the class `Storage.ExpenseStore`. Each user's expenses are stored as the JSON text of one array.
- `getExpenses` reads the key `expenses_<username>`. It parses the text and sorts the array in place, newest date first.
  - A missing key, an empty value or text that does not parse gives `[]`.
- `addExpense` builds a record from the caller's fields plus an assigned `id` and `createdAt`. It puts the record in front of the current list and writes the array back under the same key.
- `deleteExpense` filters one id out of the current list, but it writes the result under `<username>_expenses`.

Supporting definitions:
- JSON is the abstract `ExpenseModel.Codec`, a partial parse paired with a serialiser. `ReadsBack(xs)` states what the code relies on for one array `xs` it writes: parsing the written text gives `xs` back, and the text is not empty. The read-after-write lemmas require it only of the array they write.
- `Storage.Listed` is what `getExpenses` returns for given storage contents.
- `DateOrder.SortByDate` is the stable sort by descending date. `DateOrder.SortByDateInPlace` is the in-place array sort, proved equal to it.

**The chart figures** (`src/components/ExpenseCharts.tsx`, lines 13-60), for a list of records and the current instant `clock`.
- The component computes a week start and a month start.
- It filters the records into a weekly and a monthly window (`Aggregation.Since`).
- It adds up their amounts (`Aggregation.Total`) and counts them.
- It groups the amounts by category and by short weekday label in a dictionary built in a `forEach` loop (`Aggregation.AggregateBy`). Each group is rounded with `toFixed(2)` (`Aggregation.Round2`).
- Only the two category groupings are rendered, as pies. The weekday grouping `weeklyByDay` is computed but not shown.
- `Aggregation.Grouped` is the dictionary's result: one entry per distinct key, in order of first occurrence.

Dates and the calendar:
- Instants are integers: milliseconds of local time since 1970-01-01.
- `Calendar.DayOfWeek`, `Calendar.DayOfMonth` and `Calendar.MonthStart` compute `getDay()`, `getDate()` and the first of the month with the proleptic Gregorian calendar.
- `Calendar.JsDate` is a mutable `Date` object whose `SetDate` changes it in place.
- `Calendar.WeekStart` is where `now.setDate(now.getDate() - now.getDay())` leaves `now`.

`Charts.ExpenseCharts` is the component as written. `Charts.ExpenseChartsCorrected` uses a Sunday-midnight week start and the first of the current month. Both are proved equal to the specification function `Charts.Summary`.

The code and a plain reading of the application differ in three places. The model follows the code in each case, and "## Findings" lists all three:
- **Delete key.** A delete should take effect for the same user's next read. The code writes the delete under a different key.
- **Week window.** The week should start at Sunday 00:00. The code keeps the clock's time of day.
- **Month window.** The month should start at the first of the month holding now. Because line 15 mutates `now`, the code takes the first of the month holding the week start.

## Model

| member | source | states |
|---|---|---|
| ExpenseModel.NewExpense | src/utils/storage.ts:27-31 | the new record: the caller's amount, category, description and date, with the assigned id and createdAt |
| Storage.ReadKey | src/utils/storage.ts:6 | the key getExpenses reads and addExpense writes: `"expenses_" + username` |
| Storage.DeleteKey | src/utils/storage.ts:47 | the key deleteExpense writes: `username + "_expenses"` |
| Storage.StoredUnder | src/utils/storage.ts:6-17 | the stored array under a key: `[]` for a missing key, an empty string (`if (data)` fails) or text that does not parse |
| Storage.Listed | src/utils/storage.ts:4-18 | what getExpenses returns: the stored array under the read key, sorted by `SortByDate` |
| Storage.Without | src/utils/storage.ts:46 | `filter(expense => expense.id !== expenseId)`: the records with another id, in order |
| DateOrder.SortByDate | src/utils/storage.ts:11 | the result of the stable sort with comparator `b.date - a.date`, as a stable insertion sort |
| Storage.ExpenseStore.GetExpenses | src/utils/storage.ts:4-18 | returns `Listed` and changes nothing; it returns `[]` when the key is missing or the text does not parse; the result is a permutation of the stored array, sorted by date descending, with each date's records in stored order |
| Storage.ExpenseStore.SetItem | src/utils/storage.ts:34 | a write succeeds exactly when the storage is not full; success updates only the given key; failure throws and leaves storage unchanged |
| Storage.ExpenseStore.AddExpense | src/utils/storage.ts:20-41 | on success only the read key changes; it holds `[record] + getExpenses(username)`, and the record carries the caller's amount, category, description and date plus the given id and createdAt; a failed write rejects and leaves storage unchanged |
| Storage.ExpenseStore.DeleteExpense | src/utils/storage.ts:43-48 | on success only `DeleteKey(username)` changes, set to getExpenses minus the records with that id; a failed write throws and changes nothing |
| Storage.ExpenseStore.DeleteExpenseCorrected | src/utils/storage.ts:43-48 | the same filter, written under the read key |
| Storage.WithoutMembers | src/utils/storage.ts:46 | the filter keeps a record exactly when it was in the list and has another id, never more often than the list holds it (a sub-multiset, no longer than the list) |
| Storage.WithoutAbsentId | src/utils/storage.ts:46 | an id that no record carries leaves the list unchanged |
| Storage.WithoutSorted | src/utils/storage.ts:46 | filtering a newest-first list keeps it newest first |
| Storage.WithoutAppend | src/utils/storage.ts:46 | the filter distributes over concatenation, so the kept records stay in order |
| Storage.KeysCoincide | src/utils/storage.ts:6-47 | the read key and the delete key are equal exactly for usernames `("expenses_")^k + "expenses"` |
| Storage.OtherUsersUnchanged | src/utils/storage.ts:24-34 | a write under one user's read key leaves every other user's list unchanged |
| Storage.AddThenGet | src/utils/storage.ts:24-34 | if the written array reads back, then after an add getExpenses of that user is the sorted new list: it holds the new record and every earlier one; every other user's list is unchanged |
| Storage.AddNewestThenGet | src/utils/storage.ts:11-33 | a record no older than any stored one is listed first, in front of the earlier list |
| Storage.DeleteIsInvisible | src/utils/storage.ts:45-47 | unless the keys coincide, the read key's value and the next getExpenses are unchanged by the delete |
| Storage.DeleteSelfKeyedThenGet | src/utils/storage.ts:45-47 | when the keys coincide, the delete takes effect: no listed record has the id |
| Storage.DeleteCorrectedThenGet | src/utils/storage.ts:45-47 | if the written array reads back, then with the corrected key the next getExpenses is the old list minus exactly that id's records, in order; other users are unchanged |
| Storage.DeleteAbsentIdThenGet | src/utils/storage.ts:45-46 | deleting an absent id (corrected key) leaves the list as it was |
| Storage.DeletedRecordStillListed | src/utils/storage.ts:45-47 | concrete case: "alice" deletes her only record and getExpenses still lists it |
| Storage.DeleteOverwritesOtherUser | src/utils/storage.ts:47 | a delete as "expenses_bob" overwrites the list of user "bob_expenses" |
| DateOrder.SortByDateCorrect | src/utils/storage.ts:11 | the sort is a permutation, sorted by date descending, and stable: each date's records keep their stored order |
| DateOrder.SortByDateOfSorted | src/utils/storage.ts:11 | sorting an already sorted array leaves it unchanged |
| DateOrder.InsertByDatePerm | src/utils/storage.ts:11 | one insertion step adds exactly the inserted record |
| DateOrder.InsertByDateSorted | src/utils/storage.ts:11 | one insertion step keeps the list sorted |
| DateOrder.InsertByDateOnDate | src/utils/storage.ts:11 | one insertion step puts the new record after the records with the same date |
| DateOrder.InsertAt | src/utils/storage.ts:11 | the in-place insertion step: the first i+1 cells become the insertion of `a[i]` into `a[..i]`; the rest is unchanged |
| DateOrder.SortByDateInPlace | src/utils/storage.ts:11 | the array after the in-place sort equals `SortByDate` of its old contents |
| Calendar.WeekStart | src/components/ExpenseCharts.tsx:15 | where `now.setDate(now.getDate() - now.getDay())` leaves `now`: `getDay()` whole days earlier at the same time of day |
| Calendar.WeekStartMidnight | src/components/ExpenseCharts.tsx:15 | the corrected week start: local midnight of the Sunday on or before `t` |
| Calendar.WeekdayLabel | src/components/ExpenseCharts.tsx:46 | `toLocaleDateString("en-US", { weekday: "short" })`: "Sun".."Sat" indexed by `getDay()` |
| Aggregation.Since | src/components/ExpenseCharts.tsx:19-28 | the window filter: the records with `date >= start`, in order |
| Aggregation.Total | src/components/ExpenseCharts.tsx:59-60 | the `reduce` total: the sum of the amounts, 0 for an empty list |
| Aggregation.Round2 | src/components/ExpenseCharts.tsx:36-52 | `Number(x.toFixed(2))` on an exact decimal: nearest multiple of 0.01, halves away from zero |
| Aggregation.KeysOf | src/components/ExpenseCharts.tsx:32-48 | the dictionary's keys in insertion order: each distinct key once, where it first occurs |
| Aggregation.SumFor | src/components/ExpenseCharts.tsx:34 | the unrounded dictionary value of a key: the sum of that key's amounts |
| Aggregation.Grouped | src/components/ExpenseCharts.tsx:31-53 | what aggregateByCategory / aggregateByDay return: each key of `KeysOf` with `Round2` of its `SumFor` |
| Calendar.TimeOfDay | src/components/ExpenseCharts.tsx:15 | the time of day is in `[0, 1 day)` and the instant is its day's midnight plus it |
| Calendar.DayOfWeek | src/components/ExpenseCharts.tsx:15 | `getDay()` is in 0..6 |
| Calendar.DayOfMonth | src/components/ExpenseCharts.tsx:15 | `getDate()` is in 1..31 |
| Calendar.MonthStart | src/components/ExpenseCharts.tsx:16 | the month start is a midnight, at most 31 days before `t` and not after it |
| Calendar.MonthStartIsFirstOfMonth | src/components/ExpenseCharts.tsx:16 | the month start is day 1 of its month, and every later day up to `t` is day 2 or more |
| Calendar.DayOfMonthBack | src/components/ExpenseCharts.tsx:15-16 | going back `j` days within the month lowers `getDate()` by `j` |
| Calendar.DayOfMarchYearBack | src/components/ExpenseCharts.tsx:16 | going back within the March-based year lowers the day of the year by as much |
| Calendar.WeekStartIsSundaySameTime | src/components/ExpenseCharts.tsx:14-15 | the week start as written is the Sunday on or before now, at now's time of day, less than 7 days back |
| Calendar.WeekStartMidnightIsSunday | src/components/ExpenseCharts.tsx:15 | the corrected week start is Sunday 00:00, less than 7 days back |
| Calendar.MidnightOfWeekStart | src/components/ExpenseCharts.tsx:15 | midnight of the as-written week start is the corrected week start |
| Calendar.WeekdayLabelRoundTrip | src/components/ExpenseCharts.tsx:46 | the short weekday label maps back to `getDay()` |
| Calendar.WeekdayLabelInjective | src/components/ExpenseCharts.tsx:46 | two instants share a label exactly when they share a weekday |
| Calendar.JsDate.SetDate | src/components/ExpenseCharts.tsx:15 | `setDate` moves this Date object itself by `date - getDate()` whole days, keeps the time of day, and returns the new instant |
| Calendar.JsDate.SetMidnight | src/components/ExpenseCharts.tsx:15 | the corrected step moves the object back to its day's midnight |
| Aggregation.SinceMembers | src/components/ExpenseCharts.tsx:19-28 | a window holds exactly the records dated at or after its start |
| Aggregation.SinceAppend | src/components/ExpenseCharts.tsx:19-28 | the filter keeps the records' original order |
| Aggregation.SinceNested | src/components/ExpenseCharts.tsx:19-28 | filtering a wider window by a later start gives the narrower window |
| Aggregation.TotalAppend | src/components/ExpenseCharts.tsx:59-60 | the `reduce` total is additive over concatenation |
| Aggregation.KeysOfExact | src/components/ExpenseCharts.tsx:32-48 | the dictionary's keys are distinct, every record's key is present, every key comes from a record, and there are none exactly when the list is empty |
| Aggregation.SumForAbsent | src/components/ExpenseCharts.tsx:34 | a key no record carries sums to 0 |
| Aggregation.GroupTotalsConserved | src/components/ExpenseCharts.tsx:34-60 | the unrounded per-key totals add up to the `reduce` total |
| Aggregation.Round2IsNearest | src/components/ExpenseCharts.tsx:36-52 | `toFixed(2)` gives a whole number of cents, no whole number of cents is closer to the input, and so it moves a value by at most half a cent |
| Aggregation.Round2NearerThan | src/components/ExpenseCharts.tsx:36-52 | for one given amount of whole cents, the rounded value is at least as close to the input |
| Aggregation.Round2OfCents | src/components/ExpenseCharts.tsx:36-52 | a value with at most two decimals is unchanged, so 0.1 + 0.2 shows as 0.3 |
| Aggregation.GroupedEntries | src/components/ExpenseCharts.tsx:31-53 | one entry per distinct key, in first-occurrence order; each entry holds the rounded per-key sum; names are distinct; the grouping is empty exactly when the list is |
| Aggregation.GroupedCoversKeys | src/components/ExpenseCharts.tsx:31-40 | every record's key names an entry |
| Aggregation.GroupedNamesFromRecords | src/components/ExpenseCharts.tsx:31-40 | every entry is named by some record's key, so an absent category gets no entry |
| Aggregation.GroupedTotalNear | src/components/ExpenseCharts.tsx:36-60 | the entries add up to the list's total within half a cent per entry |
| Aggregation.AggregateBy | src/components/ExpenseCharts.tsx:31-53 | the `forEach` loop over a dictionary, followed by `Object.entries(...).map`, returns `Grouped(xs, key)` |
| Aggregation.AggregateByCategory | src/components/ExpenseCharts.tsx:31-40 | `aggregateByCategory` returns the category grouping |
| Aggregation.AggregateByDay | src/components/ExpenseCharts.tsx:43-53 | `aggregateByDay` returns the weekday-label grouping |
| Aggregation.DayChartNames | src/components/ExpenseCharts.tsx:46 | the per-weekday data is named only by "Sun".."Sat" |
| Aggregation.DayChartAtMostSeven | src/components/ExpenseCharts.tsx:43-53 | the per-weekday data has at most seven entries |
| Charts.Summary | src/components/ExpenseCharts.tsx:19-60 | the figures for given window starts: the two filters, their totals and counts, the two category groupings and the weekday grouping of the week |
| Charts.Summarize | src/components/ExpenseCharts.tsx:19-60 | for given window starts, the filters, groupings, totals and counts equal `Summary` |
| Charts.ExpenseCharts | src/components/ExpenseCharts.tsx:13-60 | as written: the week starts at `WeekStart(clock)` and the month at `MonthStart(WeekStart(clock))` |
| Charts.ExpenseChartsCorrected | src/components/ExpenseCharts.tsx:13-60 | with a Sunday-midnight week start and the first of the current month |
| Charts.TotalSinceMonotone | src/components/ExpenseCharts.tsx:19-60 | with non-negative amounts, an earlier start never lowers the total |
| Charts.WeekWithinMonthAsWritten | src/components/ExpenseCharts.tsx:15-28 | as written, month start <= week start <= now; the weekly records are the monthly ones from the week start on; the weekly count (and, with non-negative amounts, total) is at most the monthly one |
| Charts.EmptyChartsIffNoRecords | src/components/ExpenseCharts.tsx:102-168 | each of the two category pies shows "No expenses" exactly when its window count is 0; the computed but unrendered `weeklyByDay` is empty exactly when the weekly count is 0 |
| Charts.ChartsMatchCards | src/components/ExpenseCharts.tsx:36-60 | each category pie's slices add up to its card's total within half a cent per slice; the unrendered `weeklyByDay` entries add up to the weekly total within 3.5 cents |
| Charts.CorrectedWindows | src/components/ExpenseCharts.tsx:14-28 | the corrected week starts Sunday 00:00 within 7 days before now; the corrected month starts 00:00 on the latest first of the month; each window holds every record dated from its start |
| Charts.MonthWindowAgreesMidMonth | src/components/ExpenseCharts.tsx:15-16 | when the week start falls in the current month, the as-written and corrected month starts agree |
| Charts.MonthWindowStartsEarlier | src/components/ExpenseCharts.tsx:15-16 | conversely, when `getDay() >= getDate()`, the month window as written starts strictly before the first of the current month |
| Charts.EpochWindows | src/components/ExpenseCharts.tsx:15-16 | at 1970-01-01 00:00 (a Thursday): the week as written starts 28 December, its month 1 December, and the corrected month 1 January |
| Charts.WeekWindowDropsSundayMorning | src/components/ExpenseCharts.tsx:15-22 | at Wednesday noon, a record from Sunday 00:00 is not in the week as written, but is in the corrected week |
| Charts.MonthWindowReachesLastMonth | src/components/ExpenseCharts.tsx:16-28 | on 1 January, a 12 December record is counted in "this month" as written, but not by the corrected window |

## Left out

- Time zones and daylight saving: every local day is 24 hours long, and the zone offset is folded into the instant.
- Parsing `expense.date` with `new Date(...)`: a date is already an instant. JavaScript reads a date-only string as UTC midnight; that shift is not modelled.
- Invalid dates (`NaN` instants): every record's date is an integer.
- The shape of parsed JSON: `JSON.parse(...) as Expense[]` is an unchecked cast. The abstract codec yields expense arrays or nothing, so arrays with malformed elements are not modelled.
- `localStorage.getItem` throwing (storage disabled) is not modelled. Its `catch` would return `[]`, the same result as for unparsable text, which is modelled.
- `console.error` logging: output only.
- `Date.now()` ids and `new Date().toISOString()`: they are the caller-supplied `id` and `createdAt`. Id uniqueness is not modelled. `createdAt` is an instant rather than its ISO string.
- The `Promise` wrapper of `addExpense` is a synchronous result: `Pass` resolves and `Fail` rejects.
- Storage.ExpenseStore.SetItem: the only failure modelled is a full storage (quota exceeded).
- Aggregation.Round2: amounts are exact reals, so binary floating point and its artifacts in sums and in `toFixed` are not modelled.
- Aggregation.AggregateBy: entries come out in insertion order. JavaScript lists integer-like keys (a category such as "42") first, in numeric order, and this is not modelled.
- Aggregation.AggregateBy: the dictionary is a plain object `{}`, so a key that names an inherited `Object.prototype` member behaves differently, and this is not modelled.
  - A category such as `constructor`, `toString` or `valueOf` starts from that inherited function instead of `0`. Line 34 then builds a string by concatenation, and `amount.toFixed(2)` at line 38 throws, so the component fails to render.
  - A `__proto__` category is assigned to the object's prototype slot, not to an own entry. Its amount is silently lost, and `Object.entries` does not list it.
  - The model treats every key as an ordinary entry starting from 0.
- JSX rendering, the `recharts` charts, `COLORS` and the card layout (ExpenseCharts.tsx lines 62-177) are not modelled. The only modelled part is which branch the two category pies take ("No expenses" or a pie).
- `weeklyByDay` (line 57) is computed but never rendered; the model computes it and proves facts about it, but there is no bar chart to model.
- Charts.TotalSinceMonotone and the total clause of Charts.WeekWithinMonthAsWritten assume non-negative amounts. The code accepts any number, and a refund-like negative amount can make the weekly total exceed the monthly one.
- The codec is only required to read back the arrays the lemmas write (`ReadsBack`). Real `JSON.stringify` of IEEE doubles is not modelled.
- src/pages/DashboardPage.tsx, src/App.tsx and vite.config.js: UI state, routing and build configuration.
- src/utils/types.ts is not part of this model. `ExpenseModel.Expense` follows the fields the storage and chart code use.

## Findings

| source | as written | input that shows it | evidently intended | confidence | as-written member | corrected member |
|---|---|---|---|---|---|---|
| src/utils/storage.ts:47 | `deleteExpense` writes the filtered list under `${username}_expenses`, while reads and adds use `expenses_${username}` | user "alice" with one stored record deletes it by its id; `getExpenses("alice")` still lists it. Deleting as "expenses_bob" also overwrites user "bob_expenses" | write under `expenses_${username}`, so the next `getExpenses` lacks exactly that id's records | not executed; high (the key strings differ in the code) | Storage.DeletedRecordStillListed | Storage.DeleteCorrectedThenGet |
| src/components/ExpenseCharts.tsx:15 | the week start keeps the current time of day | clock = Wednesday 7 January 1970 12:00; a record dated Sunday 4 January 00:00 is left out of "This Week" | the week starts Sunday 00:00 | not executed; medium (depends on the intended week boundary) | Charts.WeekWindowDropsSundayMorning | Charts.CorrectedWindows |
| src/components/ExpenseCharts.tsx:15-16 | `setDate` mutates `now`, so the month start is the first of the month holding the week start | clock = Thursday 1 January 1970 00:00; "This Month" starts 1 December 1969, and a record of 12 December is counted. In general the month window starts in an earlier month whenever `getDay() >= getDate()` | the month starts on the first of the month holding the current date | not executed; high (the card is labelled "This Month") | Charts.MonthWindowReachesLastMonth | Charts.CorrectedWindows |
