# To-Do List Manager — a verified model of its state engine

This project models the in-memory state engine of `script.js`, a single-page
to-do list manager. It has three parts, each written in the form the source
takes:

- **The daily checklist** (`dailyTasks`). It holds at most five recurring
  items, each done or not. The whole list is cleared once per calendar day by
  `utils.checkDailyReset`. The model is the class `DailyTasks.Checklist`: its
  fields are the list, its stored copy and the stored reset marker, and its
  methods change them in place as the source does.
- **The task list** (`taskManager`). It holds one-off tasks, newest first.
  Each task has a title, a description, a due date, a priority, a completed
  flag and time stamps. The list is shown through an "all"/"active"/"completed"
  filter. The model is the class `TaskManager.TaskList`.
- **What is derived from the lists**:
  - the pie chart's completed/pending split and the bar chart's completions
    per day (module `Analytics`);
  - the 42 date cells of the calendar's month view (module `Calendar`).

Every state-changing method is specified by a pure function of the old state:
`Renamed`, `Toggled`, `Without`, `Cleared`, `NewTask`, `Edited`. The
properties the source promises are proved about those functions as lemmas:
toggling twice, deleting what was just added, re-editing, the two filter views
splitting the list, and the histogram never exceeding the pie's completed
count.

JavaScript's `Array.prototype.filter`, `Array.prototype.find` and
`String.prototype.trim` are modelled in modules `Lists` and `Text`. `trim`
uses exactly ECMAScript's WhiteSpace and LineTerminator characters.

How the environment enters the model:

- **Local storage.** Each list has a field `saved: Option<seq<..>>` that holds
  the JSON entry the list is written to (None while the entry is absent).
  Every mutating method states what it leaves in `saved`. `Load` models a page
  reload: the list is replaced by the stored copy when there is one. Each
  class's `Valid()` invariant includes "the stored copy is the list", and every
  method preserves it.
- **Parameters.** `Date.now()`, `utils.generateId()`,
  `new Date().toISOString()` and `new Date().toDateString()`, and the answer to
  `confirm(...)`, are all parameters (`id`, `now`, `today`, `confirmed`).
- **Day functions.** The mapping from a completion time stamp to the local day
  it falls on is a function parameter `dayOf`.

## Model

| member | source | states |
|---|---|---|
| Text.Trim | script.js:192 | `trim` keeps no whitespace at either end and returns the empty string exactly when the input is all whitespace |
| Text.TrimStart | script.js:192 | the result is a suffix of the input; what was cut is all whitespace; the first kept character is not whitespace |
| Text.TrimEnd | script.js:192 | the result is a prefix of the input; what was cut is all whitespace; the last kept character is not whitespace |
| Text.IsBlank | script.js:192 | `!s.trim()`: the name trims to the empty string, which by `Trim`'s contract means it is all whitespace |
| Text.TrimIsInfix | script.js:198 | the trimmed name is a contiguous piece of the typed name with only whitespace around it |
| Text.TrimIdempotent | script.js:215-216 | trimming an already trimmed name changes nothing |
| Lists.Filter | script.js:208 | `filter` returns no more elements than it gets, all from the input and all accepted by the callback |
| Lists.FilterIsSubsequence | script.js:208 | `filter` keeps the accepted elements in their original order |
| Lists.FilterMultiset | script.js:369 | `filter` keeps every occurrence of an accepted element and drops every rejected one |
| Lists.Without | script.js:208 | `filter(t => t.id !== id)`, the deletion both lists use (also line 369): every element with the id is gone, every other element stays, as often as before and in order |
| Lists.FindFirst | script.js:214 | `find` picks the first element the callback accepts, or nothing when it accepts none |
| Lists.FilterComplement | script.js:569-570 | filtering by a predicate and by its negation splits the list: lengths add up and the two multisets make up the list |
| DailyTasks.Renamed | script.js:213-220 | `editTask` renames the first entry with the id to the trimmed name only when the name is not blank (`IsBlank`); otherwise the list is unchanged |
| DailyTasks.Toggled | script.js:272-279 | `toggleTask` flips only the first matching entry's flag; nothing else changes; an unknown id changes nothing |
| DailyTasks.Cleared | script.js:62 | the reset sweep leaves every entry not done, with its id and name kept |
| DailyTasks.ToggleTwice | script.js:272-279 | toggling the same entry twice gives the original list back |
| DailyTasks.RenameIdempotent | script.js:213-220 | renaming twice with the same name is the same as renaming once |
| DailyTasks.DeleteUndoesAdd | script.js:196-208 | deleting the entry that was just appended under a fresh id restores the previous list |
| DailyTasks.Checklist.constructor | script.js:7 | the first start has an empty list and nothing in storage |
| DailyTasks.Checklist.Load | script.js:88-93 | `loadDailyTasks` gives back what was stored, and an absent entry gives the empty list |
| DailyTasks.Checklist.AddTask | script.js:186-205 | a full list (5 entries) refuses first, then a blank name (`IsBlank`) is ignored; otherwise the trimmed name is appended as not done and the list is stored; a refusal changes nothing |
| DailyTasks.Checklist.DeleteTask | script.js:207-211 | the list becomes `Without(old, Id, id)` and is stored whatever it held; at most five distinct-id entries remain |
| DailyTasks.Checklist.EditTask | script.js:213-220 | the list becomes `Renamed(old, id, name)` and is stored only when an entry was renamed |
| DailyTasks.Checklist.ToggleTask | script.js:272-279 | the list becomes `Toggled(old, id)` and is stored only when the id was found |
| DailyTasks.Checklist.CheckDailyReset | script.js:56-66 | on a day other than the stored marker, every entry is cleared, the list is stored and the marker becomes today; on the marker's own day nothing changes |
| DailyTasks.Checklist.Progress | script.js:260-263 | the done count is at most the total, which is the list's length, and equals it exactly when every entry is done |
| DailyTasks.ClearedIdempotent | script.js:62 | clearing an already cleared list changes nothing |
| DailyTasks.ResetTwiceSameDay | script.js:56-66 | two sweeps on one day leave the list and the stored copy exactly as one sweep does |
| TaskManager.OrElse | script.js:340-342 | JavaScript's `value \|\| fallback` on an optional string: the fallback when the value is absent or empty, the value otherwise |
| TaskManager.NewTask | script.js:336-346 | a new task is open, has no completion time and is created now; description and due date default to "" and priority to "medium" (the `\|\|` defaults, via `OrElse`) |
| TaskManager.Overwritten | script.js:357-360 | editing overwrites title, description, due date and priority with the same defaults, and keeps the id, the flag and both time stamps |
| TaskManager.Edited | script.js:354-364 | only the first task with the id changes, and only in its editable fields; an unknown id changes nothing |
| TaskManager.Toggled | script.js:376-385 | the first task with the id flips its flag, gets `completedAt` = now when it becomes completed and null when it reopens, and changes in nothing else |
| TaskManager.Filtered | script.js:387-396 | the `switch` on the filter value: the open tasks for "active", the completed ones for "completed", the whole list otherwise; its properties are stated by `FilterViews` |
| TaskManager.FilterViews | script.js:387-396 | the "active" and "completed" views keep list order, hold only open or only completed tasks, and together are the whole list; any other filter value shows the whole list |
| TaskManager.ToggleTwice | script.js:376-385 | toggling twice restores every flag; an open task comes back exactly; a completed task comes back with the second call's time |
| TaskManager.EditIdempotent | script.js:354-364 | editing twice with the same data is the same as editing once |
| TaskManager.DeleteUndoesAdd | script.js:348-369 | deleting the task that was just added (put in front under a fresh id) restores the previous list |
| TaskManager.TaskList.constructor | script.js:6-8 | the first start has no tasks, nothing stored and the filter "all" |
| TaskManager.TaskList.Load | script.js:77-82 | `loadTasks` gives back what was stored |
| TaskManager.TaskList.AddTask | script.js:336-352 | the new task is put in front of the list and the list is stored; ids stay distinct and every task is stamped consistently |
| TaskManager.TaskList.EditTask | script.js:354-364 | the list becomes `Edited(old, id, data)` and is stored only when the id was found |
| TaskManager.TaskList.DeleteTask | script.js:366-374 | a confirmed delete gives `Without(old, Id, id)` and stores it; a cancelled one changes nothing |
| TaskManager.TaskList.ToggleComplete | script.js:376-385 | the list becomes `Toggled(old, id, now)` and is stored only when the id was found; completed tasks keep a completion time and open ones have none |
| TaskManager.TaskList.SetFilter | script.js:466-474 | the filter button sets the current filter and nothing else |
| TaskManager.TaskList.GetFilteredTasks | script.js:387-396 | the shown tasks keep list order; for "active" they are exactly the open tasks and for "completed" exactly the completed ones, each as often as stored; any other value shows the list itself |
| Analytics.PieCounts | script.js:569-570 | the completed and pending counts add up to the number of tasks and are the sizes of the two filter views |
| Analytics.ToggleMovesPie | script.js:376-385 | toggling a task moves it by one from one side of the pie to the other; an unknown id moves nothing |
| Analytics.EditKeepsCharts | script.js:354-364 | editing a task changes neither chart |
| Analytics.LastSevenDays | script.js:45-54 | the seven days ending today, oldest first and all different |
| Analytics.TasksPerDay | script.js:701-710 | one count per day, none larger than the number of tasks |
| Analytics.PerDayAt | script.js:701-710 | the bar for a day counts exactly the tasks whose completion falls on that day |
| Analytics.HistogramWithinCompleted | script.js:701-710 | over distinct days, the bars add up to at most the pie's completed count |
| Analytics.SingleCompletion | script.js:701-710 | a single completed task gives a 1 on its own day and 0 on every other day |
| Analytics.ThreeDaysAgo | script.js:629-630 | a task completed three days ago gives the bars 0,0,0,1,0,0,0 |
| Analytics.LabelDates | script.js:51 | what the labels parse back to: month and day kept, year replaced by the parser's default 2001 |
| Analytics.LabelParsingMissesCompletions | script.js:703 | as written, a completion outside 2001 is not counted on its own day's bar, though the intended comparison counts it |
| Analytics.CompletedTodayShowsZero | script.js:701-710 | one task completed on 2026-10-14 gives the bar 0 as written and 1 as intended |
| Calendar.Render | script.js:124-158 | previous-month days up to the first weekday, then days 1..n with today marked, then next-month days; for every real month (28 to 31 days, any weekday) this is exactly 42 cells |
| App.Start | script.js:721-730 | page load restores both lists from storage and runs the daily sweep; the task list, its stored copy and its filter are untouched; unless the sweep already ran today, the checklist is cleared and stored, otherwise it and its stored copy stay as they were |

## Findings

| source | as written | input that shows it | evidently intended | confidence | as-written member | corrected member |
|---|---|---|---|---|---|---|
| script.js:51, script.js:703 | `getLastSevenDays` turns each day into a yearless label such as "Oct 14". `getTasksPerDay` parses it back with `new Date(day)`, so the year is lost. In V8, the date gets year 2001. In engines that reject the string, it becomes "Invalid Date". Either way, the `toDateString` comparison fails for every completion in the current year. | one task completed on 2026-10-14, histogram drawn that day: the today bar is 0 | compare each completion against the window's own dates, giving a 1 on the today bar | medium: depends on the engine's parser for yearless strings; not executed | Analytics.LabelDates, Analytics.CompletedTodayShowsZero | Analytics.TasksPerDay, Analytics.SingleCompletion |

## Left out

- Rendering is not modelled: every `render` method, `innerHTML`, event wiring, the edit modal, the progress text and the add button's `disabled` state. The model keeps only the state these read.
- Chart.js, the charts' styling and month navigation (`prevMonth`/`nextMonth` on `state.currentDate`) are not modelled; they are display and `Date` arithmetic.
- `alert`, `confirm` and `prompt`: the capacity alert is the `AtCapacity` outcome, the answer to the task-deletion `confirm` is the `confirmed` parameter, and the daily list's confirm and prompt dialogs stay with the caller, as in the source.
- `utils.getDaysInMonth`, `utils.getFirstDayOfMonth` and `utils.isToday` are not modelled; `Calendar.Render` takes their results (month length, first weekday, previous month's length, today's day in the month) as inputs.
- `utils.formatDate` and the other locale formatting are display only.
- JSON and `localStorage` are modelled as a snapshot field. The model assumes `JSON.parse(JSON.stringify(x))` gives `x` back. It also assumes no other page writes the entries. A corrupt entry, which makes `JSON.parse` throw, is not modelled.
- Records are modelled as values. The source updates the object that `find` returns in place. Nothing else keeps a reference to that object, so a value update is equivalent. The alias that is returned when `getFilteredTasks` gives back `state.tasks` itself is not modelled.
- DailyTasks.Checklist.AddTask requires a fresh id. `Date.now()` can repeat within one millisecond, and two adds in the same millisecond would share an id in the source.
- TaskManager.TaskList.AddTask requires a fresh id. `utils.generateId` is random, and a collision is not modelled.
- `parseInt(dataset.id)` in the checklist's click handlers is not modelled: ids are integers from the start.
- Text.Trim works on Unicode scalar values, while JavaScript strings are UTF-16 code units; lone surrogates are not modelled.
- The task title is not checked: `addTask` and `editTask` accept any title, including an empty one. The source contains no such check; any check happens in the page's form.
- `priority` is kept as a string, as the source stores it. The source never restricts it to low, medium or high; it only replaces a falsy value by "medium".
- A task record with `title` undefined is not modelled; the title is always a string.
- Analytics.TasksPerDay is specified on the days the window is made of. The label round trip `getTasksPerDay` performs as written is modelled separately (Analytics.LabelDates). Time zones enter only through `dayOf`.
- Nothing of `analytics.init` or `calendar.init` beyond what `App.Start` states is modelled; they only draw.
- App.Start keeps the task list's `currentFilter` as it was. On a real page load the in-memory state is new, so the filter starts as 'all' (script.js:8); the filter is never stored, and `App.Start` does not reset it.
