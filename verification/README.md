# obn-todo in Dafny

A Dafny model of the data core of obn-todo, a small browser to-do app. The app has:

- a task list (`storage.js`) with add, edit, delete, toggle, clear-completed,
  the daily reset of recurring tasks, and progress statistics;
- D-Day countdowns (`dday.js`): at most three active at a time, future dates only,
  labels `D-n` / `D-Day` / `D+n`, switched off 30 days after the target;
- a weekly calendar strip (`weekly.js`): the Monday-to-Sunday week, its range
  caption, week navigation, the countdown marker and up to three category bars
  per day;
- the list screen (`app.js`): the category filter tab, the order tasks are drawn
  in, and the guards that ignore blank input.

All storage is a value. Each JavaScript function becomes a pure function from the
old collection to the new collection, plus the value the JavaScript returns. The
clock is a parameter: the calendar day `today` is a `Dates.Date` and the timestamp
`now` is a string. Generated ids are parameters too.

Modules:

- `Wrappers`: `Option`.
- `Text`: decimal strings, `padStart`, JavaScript string `<`, `trim`, `slice`.
- `Seqs`: `filter`, `findLast`, and a stable `sort` by rank.
- `Dates`: proleptic Gregorian dates as day numbers, `getDay`, `setDate`
  arithmetic, and the `YYYY-MM-DD` format.
- `TodoStore`: `storage.js`.
- `DDayStore`: `dday.js`.
- `Weekly`: `weekly.js`.
- `TodoList`: `app.js`.

JavaScript `Date` arithmetic is modelled on calendar days. `new Date(s + 'T00:00:00')`
and `setHours(0,0,0,0)` both mean "that calendar day at local midnight". The day
difference `calculateDDay` rounds to is therefore the exact difference in day numbers.

## Model

| member | source | states |
|---|---|---|
| Dates.YearStep | weekly.js:24-26 | The first day of the next year comes 365 or 366 days later, by the leap-year rule. |
| Dates.AddDays | weekly.js:24-26 | `setDate(getDate() + k)` rolls over months and years and lands exactly k days away. |
| Dates.AddDaysAdd | weekly.js:62-68 | Moving j days and then k days is moving j + k days. |
| Dates.AddDaysDifference | dday.js:72-78 | Moving a date by the day difference to b reaches b. |
| Dates.DayNumberOrder | dday.js:49 | Comparing the midnights of two days orders them chronologically. |
| Dates.DayNumberInjective | dday.js:49 | Two days with the same midnight are the same date. |
| Dates.Weekday | weekly.js:13 | `getDay` is between 0 (Sunday) and 6 (Saturday). |
| Dates.WeekdayAnchor | weekly.js:13 | 1 January 2026 is a Thursday. With `Dates.WeekdayAddDays` this fixes the weekday of every date. |
| Dates.WeekdayAddDays | weekly.js:13 | `getDay` advances by k modulo 7 when the date moves k days. |
| Dates.FormatDate | weekly.js:32-37 | For 4-digit years, reading the text back as year, month and day gives the same date, so no two dates share a text. |
| Dates.FormatDateShape | storage.js:20-26 | For 4-digit years the text is `YYYY-MM-DD`, ten characters long, with dashes at positions 4 and 7. |
| Dates.FormatDateOrder | weekly.js:138 | For 4-digit years, the string order of two formatted dates is their chronological order, and equal strings mean equal dates. |
| Text.NatToString | weekly.js:55 | The decimal text of a number is non-empty, all digits, with no leading zero. |
| Text.ParseNatToString | dday.js:82-84 | Reading back the decimal text of a number gives the number. |
| Text.Trim | app.js:77 | `trim` returns a contiguous slice of the input, and everything cut off before and after it is white space. The result is empty exactly for a blank string, and otherwise starts and ends with a non-space. |
| Text.Take | storage.js:52 | `slice(0, n)` keeps the first n characters, or the whole string when it is shorter. |
| Text.TrimIdempotent | app.js:77 | Trimming twice is trimming once. |
| Seqs.Filter | storage.js:79 | `filter` keeps exactly the passing elements, in order, and their count. |
| Seqs.FilterIdempotent | storage.js:96 | Filtering twice with one test is filtering once. |
| Seqs.SortBy | app.js:103-106 | `sort` with a rank comparator returns a permutation of its input in non-decreasing rank. |
| Seqs.SortByStable | app.js:103-106 | Within each rank, the sort keeps the input order. |
| Seqs.SortByIdempotent | app.js:103-106 | Sorting a sorted list changes nothing. |
| TodoStore.OrDefault | storage.js:53-54 | `x \|\| fallback`: a missing or empty string falls back, anything else is kept. |
| TodoStore.FirstIndex | storage.js:69 | `findIndex` returns the first position holding the id, or none exactly when the id is absent. |
| TodoStore.AddTodo | storage.js:48-64 | Appends exactly one task and leaves the earlier ones unchanged. The new task has the given id, text cut to 100 characters, and category and priority defaulting to 직장 and 중간. It is not completed. `lastResetDate` is today only for a recurring task. |
| TodoStore.UniqueIdsPreserved | storage.js:48-64 | Adding a task with an unused id, toggling and resetting keep ids distinct. |
| TodoStore.UpdateTodo | storage.js:67-74 | An unknown id returns null and changes nothing. Otherwise only the first task with that id changes: supplied fields overwrite it, the rest are kept, and the new record is returned. |
| TodoStore.DeleteTodo | storage.js:77-81 | Removes every task with the id and keeps all others in order. The length drops by the number of matches. |
| TodoStore.DeleteTodoIdempotent | storage.js:77-81 | Deleting an id twice is deleting it once. |
| TodoStore.ToggleTodo | storage.js:84-92 | An unknown id returns null and changes nothing. Otherwise the first matching task flips `completed`, and `completedAt` is the clock when it becomes completed and null otherwise. Nothing else changes. |
| TodoStore.ToggleTwiceRestores | storage.js:84-92 | Toggling an unfinished task with no `completedAt` twice restores the collection. |
| TodoStore.ClearCompleted | storage.js:95-98 | Keeps exactly the unfinished tasks, in order. The length drops by the completed count. |
| TodoStore.ResetRecurringTodos | storage.js:101-117 | Every recurring task not yet reset today is reopened and stamped with today; every other task is untouched. `changed` holds exactly when some task needed the reset, which is exactly when the collection differs. |
| TodoStore.ResetTwiceSameDay | storage.js:101-117 | A second reset on the same day changes nothing and reports no change. |
| TodoStore.StampedPreserved | storage.js:48-117 | A task has `completedAt` exactly when it is completed. Add, toggle and reset preserve this. |
| TodoStore.StampedFiltered | storage.js:77-98 | Delete and clear-completed also preserve it, since they only drop tasks. |
| TodoStore.RoundedPercent | storage.js:125 | `Math.round(c / t * 100)` is the whole number p, between 0 and 100, with 100c/t in [p - 1/2, p + 1/2). |
| TodoStore.GetStats | storage.js:120-127 | The total is the length and `completed` counts the completed tasks. `remaining` is the difference. The percentage is 0 for an empty list and otherwise the rounded share. |
| TodoStore.StatsAfterClear | storage.js:95-127 | After clearing completed tasks, nothing is completed and the total equals the previous remaining count. |
| DDayStore.AddDDay | dday.js:41-63 | Refuses (null, nothing stored) exactly when three countdowns are active or the target is not after today. Otherwise it appends one active countdown: title cut to 30, emoji defaulting to 🎯, target kept. |
| DDayStore.ActiveCount | dday.js:43 | The active count is the length of the list filtered to active countdowns. |
| DDayStore.AtMostThreeActive | dday.js:43-44 | Adding, deleting and expiring never push the number of active countdowns above three. |
| DDayStore.DeleteDDay | dday.js:66-69 | Removes every countdown with the id and keeps the others in order. The length drops by the number of matches. |
| DDayStore.DeleteDDayIdempotent | dday.js:66-69 | Deleting an id twice is deleting it once. |
| DDayStore.CalculateDDay | dday.js:72-78 | Moving the target by the result reaches today. The result is 0 exactly on the day, negative exactly before it, and positive exactly after it. |
| DDayStore.FormatDDay | dday.js:81-85 | The label starts with `D` and is `D-Day` exactly for 0. |
| DDayStore.ParseDDay | dday.js:81-85 | Reads a label back. Only text of at least three characters starting with `D` reads as a number. A negative reading comes from `D-` and a positive one from `D+`. |
| DDayStore.RoundTripNegative | dday.js:82 | Reading `D-n` back gives the negative difference. |
| DDayStore.RoundTripPositive | dday.js:84 | Reading `D+n` back gives the positive difference. |
| DDayStore.FormatDDayRoundTrip | dday.js:81-85 | Reading `D-n`, `D-Day` or `D+n` back gives the day difference, so no two differences share a label. |
| DDayStore.CheckExpired | dday.js:88-101 | Every countdown is returned with only `isActive` possibly changed. It stays active exactly when it was active and fewer than 30 days have passed since the target. |
| DDayStore.CheckExpiredIdempotent | dday.js:88-101 | A second sweep on the same day changes nothing. |
| DDayStore.CheckExpiredMonotone | dday.js:88-101 | A sweep on an earlier day followed by one on a later day equals the later sweep alone. |
| Weekly.GetMonday | weekly.js:11-18 | Returns a Monday at most six days before the date; a Sunday maps six days back. |
| Weekly.GetMondayUnique | weekly.js:11-18 | That Monday is the only Monday within the week of the date. |
| Weekly.GetMondayIdempotent | weekly.js:11-18 | The Monday of a Monday is itself. |
| Weekly.WeekDates | weekly.js:21-29 | Seven consecutive days from the start, each one day after the previous. The `getDay` of day i is the start's plus i, modulo 7, so from a Monday they run 1..6, 0. |
| Weekly.RangeCaption | weekly.js:50-57 | The caption of a Monday and a Sunday opens with Monday's year when their years differ and with Monday's month otherwise, and it closes with Sunday's day of the month. |
| Weekly.WeekRangeTextEnds | weekly.js:45-58 | The caption opens with Monday's year when the week spans two years and with Monday's month otherwise, and it closes with Sunday's day of the month. |
| Weekly.WeekRangeTextShape | weekly.js:45-58 | Counts the 년/월/일 units in the caption. A week spanning two years has two of each. Otherwise there is no 년, one 월 when Monday and Sunday share a month (two if not), and two 일. |
| Weekly.WeekCrossesYear | weekly.js:50-53 | A week spans two years only from late December into early January. |
| Weekly.CurrentWeek | weekly.js:73-77 | Returns the Monday of today's week and selects today. |
| Weekly.PrevWeek | weekly.js:61-64 | Moves the week start seven days back, keeping the weekday and the selection. |
| Weekly.NextWeek | weekly.js:67-70 | Moves the week start seven days forward, keeping the weekday and the selection. |
| Weekly.PrevNextInverse | weekly.js:61-70 | Going forward and back, or back and forward, restores the cursor. |
| Weekly.MarkerFor | weekly.js:139-143 | The marker text is the countdown label. The state is `dday-today` exactly on the day, `dday-past` exactly after it, and empty exactly before it. |
| Seqs.LastKeyed | weekly.js:137-145 | Finds the last element filed under a key, or reports that none is. |
| Seqs.LastWins | weekly.js:137-145 | Writing `obj[key(x)] = val(x)` in order leaves a key exactly for the keys some element has. Each key holds the value of the last element with that key. |
| Weekly.MarkerKey | weekly.js:136-138 | A countdown has a marker key exactly when it is active and inside the window. The key is its target's date string. |
| Weekly.LastShown | weekly.js:136-138 | Finds the last active countdown within the week window whose target is the given day, or reports that there is none. |
| Weekly.DDayMarkers | weekly.js:133-146 | `ddayMap` has a key exactly for the days with a shown countdown, and holds the marker of the last such countdown. |
| Weekly.InWindowIsWeek | weekly.js:138 | For 4-digit years, a countdown inside the week passes the string window test. |
| Weekly.FirstSeen | weekly.js:218-226 | Reference de-duplication: distinct categories, none named after a key every plain object inherits, covering every other category of the day. |
| Weekly.GroupIsFirstSeen | weekly.js:219-226 | The `seen` loop builds exactly the reference list. `seen` starts out holding the keys a plain `{}` inherits (`toString`, `constructor`, `__proto__` and the rest), because those already read as truthy. |
| Weekly.CategoryEntries | weekly.js:218-226 | One entry per distinct category, in first-seen order. Every category gets one except those named after an inherited object key, which get none. |
| Weekly.InheritedCategoriesUnlisted | weekly.js:219-226 | A day whose categories are all inherited object keys, such as `toString`, gets no entry and draws no bar. |
| Weekly.CategoryCss | weekly.js:106-114 | Each of the seven categories gets its own bar class. Any other category that can get an entry is drawn as `cat-work`, so every bar has one of the seven classes. |
| Weekly.TasksOn | weekly.js:216 | A date with no entry in the per-date tasks reads as no tasks. A date with an entry reads as that entry. |
| Weekly.ScheduleFor | weekly.js:228-244 | Draws a bar for each of the first three category entries, with its CSS class and recurring flag. `+n` appears exactly when more than three categories exist, and n counts the extra ones. |
| Weekly.DaySchedule | weekly.js:216-245 | A day without tasks draws nothing; otherwise as above. |
| Weekly.MarkerOn | weekly.js:183-189 | The cell shows a marker exactly when some countdown is shown on that day; it is the last one's. |
| Weekly.CellFor | weekly.js:156-189 | Fixes every field of a day cell: today, selected, other-month, Saturday and Sunday flags, day number, task dot, marker and schedule. |
| Weekly.BuildWeekView | weekly.js:116-130 | The caption is the week's range text, and the strip has seven cells. |
| Weekly.BuildWeekViewCells | weekly.js:130-189 | Cell i is the cell of Monday + i. The countdown window runs from Monday's date string to Sunday's. |
| TodoList.FilterByCategory | app.js:99-101 | The 전체 tab shows every task. Any other tab shows exactly the tasks of that category, in storage order, as many as there are. |
| TodoList.PriorityKeyAsWritten | app.js:105 | As written, the sort key is 2 for 낮음 and 1 for every other priority that is not an inherited object key, 높음 included. |
| TodoList.PriorityKey | app.js:21 | The intended key: 0 exactly for 높음, 2 exactly for 낮음, and 1 otherwise. |
| TodoList.Compare | app.js:103-106 | An unfinished task sorts before a finished one, whatever their priorities. Between two unfinished or two finished tasks, the sign of the result is the order of their priority keys, and 0 means equal keys. |
| TodoList.CompareIsRankOrder | app.js:103-106 | The comparator has the sign of the difference of a single rank, so sorting with it is a sort by rank. |
| TodoList.VisibleTodos | app.js:99-106 | The drawn list is a permutation of the filtered tasks. Any earlier task compares at most equal to any later one, and unfinished tasks come before finished ones. |
| TodoList.VisibleTodosStable | app.js:103-106 | Tasks that compare equal keep their storage order. |
| TodoList.VisibleTodosAsWritten | app.js:99-106 | As written, the drawn list is a permutation sorted by the `\|\| 1` comparator. |
| TodoList.VisibleTodosAsWrittenStable | app.js:103-106 | As written, tasks that compare equal also keep their storage order. |
| TodoList.HighTiesMediumAsWritten | app.js:105 | As written, an unfinished 높음 task compares equal to an unfinished 중간 task and stays behind it when stored later. |
| TodoList.HigherPriorityFirst | app.js:103-106 | With the intended key, an unfinished task of higher priority is drawn before every unfinished task of lower priority. |
| TodoList.HighBeforeMedium | app.js:103-106 | With the intended key, the same two tasks are drawn 높음 first. |
| TodoList.HandleAdd | app.js:75-93 | A blank entry changes nothing. Otherwise exactly one non-recurring, unfinished task is appended, with the trimmed text cut to 100 characters, which is non-empty and starts with a non-space. |
| TodoList.SaveEdit | app.js:294-303 | A blank edit or unknown id changes nothing. Otherwise only the edited task changes: it gets the trimmed text, category and priority, and keeps all other fields. |
| TodoList.SaveEditIdempotent | app.js:294-303 | Saving the same edit twice is saving it once. |

## Findings

| source | as written | input that shows it | evidently intended | confidence | as-written member | corrected member |
|---|---|---|---|---|---|---|
| app.js:105 | The logical-or fallback to 1 after `PRIORITY_ORDER[a.priority]` also replaces the 0 of 높음, since 0 is falsy, so 높음 and 중간 share a key | Two unfinished tasks stored as [중간, 높음] are drawn as [중간, 높음] | 높음 sorts before 중간 (the table's comment says lower numbers sort first), e.g. `?? 1` | high; not executed | TodoList.HighTiesMediumAsWritten | TodoList.HighBeforeMedium |

`TodoList.VisibleTodos` uses the corrected key. `TodoList.VisibleTodosAsWritten` keeps the code's key.

## Left out

- Persistence: `localStorage`, JSON parse failures (read as an empty list) and the
  quota `alert`. Every store operation takes and returns the collection.
- Id generation (`crypto.randomUUID` and its `Math.random` fallback): ids are
  parameters. `TodoStore.UniqueIdsPreserved` states what a fresh id guarantees.
- Clock reading: `new Date()` and `toISOString()` become the parameters `today`
  (a date) and `now` (an opaque string). Time zones, daylight-saving shifts and
  the millisecond rounding in `calculateDDay` are not modelled; day differences
  are exact.
- Stored date strings that do not parse as a date: the countdown target is a
  valid `Dates.Date`, so `new Date('garbage')` (NaN) is not modelled.
- `TodoStore.RoundedPercent`: uses exact rational half-up rounding instead of
  floating-point `completed / total * 100`. It can differ only where the
  floating-point product misses an exact .5.
- `TodoStore.AddTodo`: `slice(0, 100)` counts UTF-16 code units. The model counts
  characters, so text with characters outside the Basic Multilingual Plane is
  cut differently.
- `TodoStore.UpdateTodo`: an `updates` object whose key is present with the value
  `undefined` is treated like an absent key. JavaScript spread would copy the
  `undefined`.
- `DDayStore.AddDDay`: `slice(0, 30)` counts UTF-16 code units. The model counts
  characters. An emoji outside the Basic Multilingual Plane counts as two units
  in JavaScript, and the cut can split it in half. A Dafny string cannot hold
  half a character, so the model keeps up to 30 whole characters.
- `TodoList.SaveEdit`: the 100-character limit on the edit box is a DOM
  `maxLength`, not a check in code. Edited text is not cut.
- Weekly tasks per date: `weekly.js` calls `Storage.getTodosByWeek`, but
  `storage.js` does not define it, so `render` always gets an empty map there.
  `Weekly.BuildWeekView` takes the map as a parameter. `storage.js` has no task
  scheduling dates, no per-date or per-week task queries and no legacy
  migration, so none is modelled.
- `selectDate`, `getSelectedDate`, the date-select/click callbacks, `init`, the
  minute timer and the focus/scroll handlers are plain state and event wiring.
  The cursor (`Weekly.WeekCursor`) holds the selected date.
- The DOM itself: element creation, class names other than those recorded in
  `Weekly.DayCell`, animations, and `updateProgress` (which only displays
  `getStats`).
- `notification.js` and `sw.js` (push reminders, service-worker caching) are not
  part of this model.
- `Weekly.WeekRangeTextShape`: states the 년/월/일 counts of each caption form
  rather than its full text, which is the body's own concatenation.
- `Weekly.CategoryCss`: requires a category that is not an inherited object key.
  `CATEGORY_CSS['toString'] || 'cat-work'` would be a function, not a class
  name, but such a category never gets an entry (`Weekly.CategoryEntries`), so
  the lookup is never made with it.
- `TodoList.PriorityKeyAsWritten`: a priority named after an inherited object
  key (`toString`, `constructor`, ...) is not modelled. `PRIORITY_ORDER[p] || 1`
  is then a function, the comparator returns NaN, and `sort` reads NaN as a tie
  with every task. That is not a consistent order, so the result is left to the
  JavaScript engine. The model gives such a priority the key 1.
- `TodoList.PriorityKey`: the corrected `?? 1` has the same gap for inherited
  keys, and the model gives them the key 1 as well.
- `addTodo` does not trim text; only `handleAdd` and `saveEdit` do. The model
  follows the code.
