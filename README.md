# Task view-model of TaskFlow, in Dafny

This project models the client-side view-model of the TaskFlow task manager, as done by `frontend/src/TaskManager.jsx`:

- **Date helpers.** `parseDateSafe` reads a due date as a local calendar day. `isoLocalKey` turns it back into a `yyyy-mm-dd` key. `daysBetween` counts the days from today.
- **Due badge.** `smartDueText` picks the badge shown under each task.
- **Counts.** The `counts` memo gives the number of tasks per status pill.
- **Visible list.** The `visibleTasks` memo filters by status, then searches, then sorts by one of four orders.
- **Timeline.** The `timelineData` memo counts the open tasks due on each of the next seven days.
- **State updates.** The model covers the optimistic update of `markDone`, the form that `openNewTaskModal` and `openEditModal` fill in, and the title check and PUT/POST choice of `saveTask`.

Each file is one module:

| file | module | contents |
|---|---|---|
| `wrappers.dfy` | `Wrappers` | `Option` stands for values that may be `null`. |
| `text.dfy` | `Text` | The string operations the view uses: digits, `String(n)`, `padStart`, `trim` with the JavaScript set of white-space characters, ASCII `toLowerCase`, `includes`, `split(c)[0]`. |
| `calendar.dfy` | `Calendar` | Proleptic Gregorian dates as (year, month, day). `MakeLocalDate` and `AddDays` model how `new Date(y, m, d)` and `setDate` roll fields over. A day number (`Ordinal`) takes the place of `getTime()`. |
| `date_helpers.dfy` | `DateHelpers` | `parseDateSafe`, `isoLocalKey`, `daysBetween`. |
| `tasks.dfy` | `Tasks` | The `Status` domain of the backend, the `Task` record, `smartDueText`, `counts`, `markDone`, the modal form and `saveTask`. |
| `visible.dfy` | `Visible` | `visibleTasks`. It is a method over a local list. The filter steps reassign the list and the sort is an explicit loop. The method is proved equal to a stable sort by key. |
| `timeline.dfy` | `Timeline` | `timelineData` keyed by each day's local key. The route the memo actually takes through `toISOString()` is modelled too; see Findings. |

Inputs from outside the view are parameters:

- **`today: CDate`** is the clock's local day (`new Date()`).
- **`engine: EngineParse`** is the engine's own `new Date(dateStr)` parse, used for strings neither date pattern matches. It gives the local fields of the Date, or `None` for an invalid Date. The model then rebuilds local midnight from those fields, as the source does.
- **`locale: CDate -> string`** stands for one of two date formatters, each the parameter of its own functions. In `Tasks.BadgeText` it is `toLocaleDateString()` of `formatDateISO` (line 51). In the timeline functions it is `toLocaleDateString(undefined, { month: "short", day: "numeric" })` (lines 271-274).
- **`offsetMinutes`** is the zone's offset from UTC. Only the as-written timeline uses it.

Some quirks of the code are modelled as written:

- **Unparseable due date.** A non-empty due date that does not parse shows "null day(s) left" with class `left` (`Tasks.SmartDueTextUnparsed`).
- **Task id 0.** An `editingId` of 0 is falsy, so saving that task sends a POST (`Tasks.SaveTask`).
- **Two-digit years.** `new Date(y, m - 1, d)` maps the years 0..99 to 1900..1999.
- **Rolled-over days.** A pattern match such as `2023-02-30` rolls over into the next month rather than being rejected.
- **Year in the key.** `isoLocalKey` does not pad the year.

For these reasons the round-trip lemmas are stated for the years 1000..9999.

The stated design of the timeline is to bucket by local calendar day. The code instead keys each bucket through `toISOString()`, which gives the UTC date, so the two disagree in zones ahead of UTC. The model follows the design in `Timeline.TimelineData`, and it models the code as written in `Timeline.TimelineAsWritten`.

## Model

| member | source | states |
|---|---|---|
| Text.IntToString | frontend/src/TaskManager.jsx:35-37 | `String(i)` starts with `-` exactly for a negative number. The digits, after the sign if there is one, denote the number's magnitude. |
| Text.NatToString | frontend/src/TaskManager.jsx:35-37 | `String(n)` is a non-empty string of decimal digits. It has one digit exactly below 10 and starts with `0` only for 0. |
| Text.PadStart | frontend/src/TaskManager.jsx:35-37 | `padStart(w, "0")` keeps a string that is long enough. Otherwise it returns exactly `w` characters: zeros, then the string. |
| Text.PadStartValue | frontend/src/TaskManager.jsx:35-37 | Padding a digit string with zeros keeps the number it denotes. |
| Text.BlankIffAllWhitespace | frontend/src/TaskManager.jsx:124 | `!s.trim()` holds exactly when every character of `s` is JavaScript white space or a line terminator. |
| Text.Lower | frontend/src/TaskManager.jsx:201 | Lower-casing keeps the length and maps each character on its own. |
| Text.IncludesIff | frontend/src/TaskManager.jsx:204-205 | `s.includes(q)` holds exactly when `q` occurs in `s` at some offset. |
| Text.BeforeFirst | frontend/src/TaskManager.jsx:21 | `split(c)[0]` is a prefix without `c`. When `c` occurs, the next character is the first `c`. |
| Calendar.RollDays | frontend/src/TaskManager.jsx:17 | A day number outside its month is rolled into the real day with the same day number. An in-range day is left as it is. |
| Calendar.RollDaysOrdinal | frontend/src/TaskManager.jsx:17 | Rolling the day over keeps its day number, counted from the first of the month. |
| Calendar.Normalize | frontend/src/TaskManager.jsx:17 | The result is a real day. Fields that already name a real day come back unchanged. |
| Calendar.NormalizeOrdinal | frontend/src/TaskManager.jsx:17 | The month index is carried into the year and the day number is kept: the result is `d - 1` days after the first of the carried month. |
| Calendar.JsYear | frontend/src/TaskManager.jsx:23 | The constructor's year rule keeps a year or moves it by 1900. It never leaves a year in 0..99. |
| Calendar.MakeLocalDate | frontend/src/TaskManager.jsx:23 | `new Date(y, mi, d)` is a real day. Outside the years 0..99, fields that name a real day come back unchanged. |
| Calendar.MakeLocalDateOrdinal | frontend/src/TaskManager.jsx:23 | `new Date(y, mi, d)` lies `d - 1` days after the first of the carried month, with the years 0..99 moved to 1900..1999. |
| Calendar.LocalMidnight | frontend/src/TaskManager.jsx:44-45 | Rebuilding a Date from its own fields changes nothing outside the years 0..99. |
| Calendar.AddDays | frontend/src/TaskManager.jsx:260-261 | `setDate(getDate() + k)` gives a real day, and adding 0 to a real day changes nothing. |
| Calendar.AddDaysOrdinal | frontend/src/TaskManager.jsx:260-261 | `setDate(getDate() + k)` moves the day number by exactly `k`. |
| Calendar.OrdinalOrder | frontend/src/TaskManager.jsx:46 | On real days the day number orders dates exactly as the calendar does, and it is one-to-one. |
| DateHelpers.ParseDateSafe | frontend/src/TaskManager.jsx:12-30 | Null or empty input gives null. Every parsed value is a real calendar day. |
| DateHelpers.FormatKey | frontend/src/TaskManager.jsx:35-37 | The key is the unpadded year, `-`, the two-digit month, `-`, the two-digit day. |
| DateHelpers.IsoLocalKey | frontend/src/TaskManager.jsx:32-38 | Null or empty input gives null. A key exists exactly when the date parses, and it is the formatted parsed day. |
| DateHelpers.DaysBetween | frontend/src/TaskManager.jsx:40-47 | The distance exists exactly when the date parses. |
| DateHelpers.FormatKeyShape | frontend/src/TaskManager.jsx:35-37 | For years 1000..9999 the key matches `^\d{4}-\d{2}-\d{2}$`, and its groups are the day's fields. |
| DateHelpers.ParseFormatKey | frontend/src/TaskManager.jsx:12-38 | Parsing the key of a day of the years 1000..9999 gives that day back. |
| DateHelpers.YmdTextParses | frontend/src/TaskManager.jsx:15-17 | A `yyyy-mm-dd` string naming a real day after the year 99 parses to the day its groups name. |
| DateHelpers.FormatCaptured | frontend/src/TaskManager.jsx:35-37 | For the years 1000..9999, formatting the day a `yyyy-mm-dd` string names gives the string back. |
| DateHelpers.KeyOfYmdText | frontend/src/TaskManager.jsx:15-16 | A `yyyy-mm-dd` string of a real day in the years 1000..9999 parses to its groups, and its key is the string itself. |
| DateHelpers.TimestampParsesAsDate | frontend/src/TaskManager.jsx:19-24 | `yyyy-mm-ddT<anything>` parses, and is keyed, exactly as its date prefix, whatever the time or zone. |
| DateHelpers.FormatKeyInjective | frontend/src/TaskManager.jsx:32-38 | Two real days with the same key are the same day, given one of them lies in the years 1000..9999. |
| DateHelpers.DaysBetweenSign | frontend/src/TaskManager.jsx:40-47 | For a due day and today after the year 99, the distance equals the due day's number minus today's. It is 0 exactly on the day, negative exactly before it and positive exactly after it. The bound is needed because line 45 applies the constructor's year rule again. |
| Tasks.ParseStatus | backend/server.js:24-27 | It recognises exactly the three status names the backend accepts. |
| Tasks.SmartDueText | frontend/src/TaskManager.jsx:231-251 | The result is null exactly when there is no due date. The badge is "completed" exactly when the status is `done`, whatever the date, and it carries the parsed due day that `formatDateISO` shows. |
| Tasks.ColorClass | frontend/src/TaskManager.jsx:235-250 | Each kind of badge has its own `colorClass`, so the class tells the kind. |
| Tasks.BadgeText | frontend/src/TaskManager.jsx:235-250 | "Completed on " is followed by the locale text of the due day, or by `formatDateISO`'s dash when there is none. The overdue and days-left texts hold the digits of exactly the count the badge carries. A null distance reads "null". |
| Tasks.BadgeTextIdentifies | frontend/src/TaskManager.jsx:240-250 | Two badges that are not completed and show the same text are the same badge. |
| Tasks.SmartDueTextClassifies | frontend/src/TaskManager.jsx:240-250 | For a task that is not done and whose date parses, with the due day and today after the year 99, the badge is exactly one of three. Overdue holds iff the due day is before today, and carries the days past. Due today holds iff it is today. Days left holds iff it is after today, and carries the days to go. |
| Tasks.SmartDueTextOfDiff | frontend/src/TaskManager.jsx:240-250 | For an open task with a date, a negative distance gives overdue by its magnitude, zero gives due today and a positive one the days left. |
| Tasks.SmartDueTextUnparsed | frontend/src/TaskManager.jsx:240-250 | A set but unparseable due date gives "null day(s) left" with class `left`. |
| Tasks.StatusCountsPartition | frontend/src/TaskManager.jsx:185-193 | The three status counts plus the tasks outside the domain make up the list length. |
| Tasks.TaskCounts | frontend/src/TaskManager.jsx:185-193 | `total` is the list length. `pending`, `in-progress` and `done` count the tasks with exactly that status, and their sum is at most `total`. |
| Tasks.CountsAddUp | frontend/src/TaskManager.jsx:185-193 | When every status is one of the three, the counts add up to `total`. |
| Tasks.MarkDone | frontend/src/TaskManager.jsx:162 | The map keeps the length and every id. It sets status `done` on the tasks with the id and leaves every other task unchanged. |
| Tasks.MarkDoneIdempotent | frontend/src/TaskManager.jsx:162 | Marking the same id twice is the same as once. |
| Tasks.MarkDoneCounts | frontend/src/TaskManager.jsx:162 | The total stays the same. The done count grows by the tasks with the id that were not yet done, and no other count grows. |
| Tasks.OpenNewTaskModal | frontend/src/TaskManager.jsx:99-103 | The modal opens with no editing id and an empty form of status `pending`. |
| Tasks.OpenEditModal | frontend/src/TaskManager.jsx:105-114 | The modal opens editing this task. A null description becomes empty and an empty status becomes `pending`. |
| Tasks.EditFormDueDate | frontend/src/TaskManager.jsx:110 | The form's date is empty exactly when the task's date does not parse. Otherwise, for years 1000..9999, it is a `yyyy-mm-dd` string that parses back to the same day. |
| Tasks.EditFormKeepsStoredDate | frontend/src/TaskManager.jsx:110 | A stored `yyyy-mm-dd` date, or a timestamp starting with one, appears in the form as that date. |
| Tasks.SaveTask | frontend/src/TaskManager.jsx:121-130 | The save is refused with "Title is required" exactly when the title is all white space. Otherwise a truthy `editingId` gives a PUT of that id and anything else a POST, each sending the form. |
| Tasks.SaveAfterEdit | frontend/src/TaskManager.jsx:105-130 | Saving straight after opening a task with a non-blank title and a non-zero id sends a PUT of that task. |
| Tasks.SaveNewTaskNeedsTitle | frontend/src/TaskManager.jsx:99-125 | The fresh new-task form is refused. |
| Visible.Where | frontend/src/TaskManager.jsx:198 | `filter` keeps only accepted tasks and never lengthens the list. |
| Visible.WhereCounts | frontend/src/TaskManager.jsx:198 | `filter` keeps every occurrence of an accepted task and no other task. |
| Visible.PillCountIsListLength | frontend/src/TaskManager.jsx:188-198 | A pill's count equals the length of the list filtered by that pill. |
| Visible.CompareAgreesWithKey | frontend/src/TaskManager.jsx:209-224 | Every comparator returns a value ≤ 0, or exactly 0, just when the key order says so. A missing date counts as infinite and `Infinity - Infinity` as 0. |
| Visible.SortBySortedPermutation | frontend/src/TaskManager.jsx:209-224 | The stable sort by key is sorted and a permutation of its input. |
| Visible.SortByStable | frontend/src/TaskManager.jsx:209-224 | Tasks with equal keys leave the sort in the order they came in. |
| Visible.SortOrderMeaning | frontend/src/TaskManager.jsx:209-224 | `created_desc` gives non-increasing ids and `created_asc` non-decreasing ids. In both due orders every dated task precedes every undated one. Dated tasks are earliest first (asc) or latest first (desc). |
| Visible.ComparatorConsistent | frontend/src/TaskManager.jsx:209-224 | Each order's comparator reports "after" exactly when the key order says the first task does not come first. |
| Visible.FindSlot | frontend/src/TaskManager.jsx:209-224 | Scanning with the comparator stops at the first task that the new task may precede; every task before it must come first. |
| Visible.SortWith | frontend/src/TaskManager.jsx:209-224 | Sorting by any consistent comparator yields exactly the stable sort by its key. |
| Visible.SortTasks | frontend/src/TaskManager.jsx:209-224 | Insertion driven by the comparator yields exactly the stable sort by the order's key. |
| Visible.FilterAndSearchContents | frontend/src/TaskManager.jsx:196-207 | After both filter steps, each task occurs as often as in the input if it is shown, and otherwise not at all. |
| Visible.ShownOnly | frontend/src/TaskManager.jsx:196-207 | A permutation of the filtered list holds every occurrence of each shown task and nothing else. Each task has the selected status and, with a non-blank query, contains the query. |
| Visible.SortByFacts | frontend/src/TaskManager.jsx:209-224 | The stable sort is sorted, a permutation, and keeps the order of each set of tasks with equal keys. |
| Visible.VisibleTasks | frontend/src/TaskManager.jsx:195-227 | The list holds every occurrence of every shown task and nothing else, as a sub-multiset of the input. Each task has the selected status. With a non-blank query its lower-cased title or description contains the lower-cased query. The list is sorted by the order, stable, and equal to the stable sort of the filtered list. |
| Visible.VisibleAllIsPermutation | frontend/src/TaskManager.jsx:195-227 | With the "all" pill and a blank query the list is a permutation of the tasks. |
| Visible.VisiblePillLength | frontend/src/TaskManager.jsx:185-207 | With a blank query, the list under a status pill is as long as the count that pill displays (`Tasks.PillCount` of the `counts` memo). |
| Timeline.TimelineData | frontend/src/TaskManager.jsx:255-278 | There are seven buckets. Each carries a key, and its count is at most the number of tasks. |
| Timeline.TimelineMeaning | frontend/src/TaskManager.jsx:255-278 | For years 1000..9998 bucket `i` is today + `i`, keyed by that day's key, and no two keys are alike. Each count is the number of tasks not done whose due date parses to that day. |
| Timeline.WindowDayYear | frontend/src/TaskManager.jsx:259-261 | Every window day is a real day in this year or the next. |
| Timeline.KeyMatchesDay | frontend/src/TaskManager.jsx:266 | Matching a task by key is the same as matching it by due day. |
| Timeline.CountByKeyIsCountByDay | frontend/src/TaskManager.jsx:265-267 | The tasks counted by key are exactly the open tasks due that day. |
| Timeline.WhereAfterWeaker | frontend/src/TaskManager.jsx:265-267 | Filtering first by a weaker test does not change what a filter keeps. |
| Timeline.TimelineSkipsDone | frontend/src/TaskManager.jsx:266 | Removing the done tasks first changes no bucket, so done tasks are never counted. |
| Timeline.TimelineAfterMarkDone | frontend/src/TaskManager.jsx:162 | After `markDone(id)` every bucket holds the same tasks as before except those with that id. |
| Timeline.TimelineAsWritten | frontend/src/TaskManager.jsx:255-278 | The memo as written has seven buckets. |
| Timeline.IsoKeyIsUtcDay | frontend/src/TaskManager.jsx:263 | The key of the ISO timestamp of local midnight is the key of the UTC day of that instant. |
| Timeline.IsoYear | frontend/src/TaskManager.jsx:263 | The year field of `toISOString()`: four digits denoting the year for 0..9999, otherwise a sign and at least six digits denoting its magnitude. |
| Timeline.IsoDate | frontend/src/TaskManager.jsx:263 | The ISO date is the year field followed by `-mm-dd`, whose groups denote the month and the day. |
| Timeline.IsoDatePattern | frontend/src/TaskManager.jsx:263 | For the years 0..9999 the ISO date matches `^\d{4}-\d{2}-\d{2}$` and its groups give the day back. |
| Timeline.IsoTime | frontend/src/TaskManager.jsx:263 | The ISO time is 13 characters, `HH:MM:00.000Z`, with hours below 24 and minutes below 60 that denote the given minutes past midnight. |
| Timeline.ToIsoString | frontend/src/TaskManager.jsx:263 | `toISOString()` of local midnight is the ISO date of the UTC day, `T`, then a time whose hours and minutes give the minutes past UTC midnight. |
| Timeline.ToIsoStringInstant | frontend/src/TaskManager.jsx:263 | The UTC day and time of day written are local midnight moved back by the zone's offset. |
| Timeline.IsoDateIsKey | frontend/src/TaskManager.jsx:263 | In the years 1000..9999 the date part of `toISOString()` is the local key of the same day. |
| Timeline.PreviousWindowDay | frontend/src/TaskManager.jsx:259-261 | The day before window day `i` is window day `i - 1`, a different real day in the years 1000..9999. |
| Timeline.ShiftedBucket | frontend/src/TaskManager.jsx:263 | Ahead of UTC, the timestamp of window day `i` is keyed as window day `i - 1`, whose key differs from day `i`'s. |
| Timeline.TimelineAsWrittenShifted | frontend/src/TaskManager.jsx:263 | Ahead of UTC, bucket `i` carries the key of day `i - 1`, never its own, and counts the tasks due that day. |
| Timeline.BucketBehindUtc | frontend/src/TaskManager.jsx:263 | In UTC and behind it, the timestamp of window day `i` is keyed as that very day. |
| Timeline.TimelineAsWrittenBehindUtc | frontend/src/TaskManager.jsx:263 | In UTC and behind it, the memo as written equals the local timeline. |
| Timeline.TimelineAsWrittenMissesToday | frontend/src/TaskManager.jsx:263 | Ahead of UTC, an open task due today is missing from today's bucket but counted in the local one. |
| Timeline.KeyOfMarch15 | frontend/src/TaskManager.jsx:35-37 | The key of 15 March 2024 is `2024-03-15`. |
| Timeline.TimelineAsWrittenExample | frontend/src/TaskManager.jsx:263 | On 2024-03-15 at UTC+1, a pending task due that day gives count 0 as written and 1 in the local timeline. |

## Left out

- Network and browser effects are left out: `loadTasks`, the request of `saveTask`, `deleteTask`, the server round trip of `markDone`, `alert` and `confirm`. Their outcome depends on the server and the user.
- `closeModal` and the rest of the React state plumbing are left out, along with JSX rendering and animation. They are presentation.
- `frontend/src/LandingPage.jsx`, `frontend/src/App.jsx` and `frontend/tailwind.config.cjs` are not part of this model. They hold no view-model logic.
- Only the status set of `backend/server.js` is modelled. Its SQL and the express-validator rules are library code.
- The engine's fallback `new Date(dateStr)` is a parameter, so the strings it accepts are not modelled.
- `toLocaleDateString` is a parameter, so its text is not modelled.
- Time of day, daylight-saving changes and millisecond arithmetic are left out. `Calendar.Ordinal` counts whole days in their place, so the rounding of `Math.floor` over a daylight-saving change is not modelled.
- `Timeline.TimelineAsWritten`: the zone offset is one constant for the whole window, so a daylight-saving change inside the week is not modelled.
- The range limit of JavaScript dates (±100,000,000 days) is left out. The years are unbounded integers.
- `Text.Lower`: lower-cases ASCII letters only. Unicode case mapping is not modelled.
- Strings are sequences of Unicode scalar values, while JavaScript strings are sequences of UTF-16 code units. A lone surrogate cannot be represented, so `includes`, `trim` and `split` are modelled only on well-formed strings, where the two agree.
- `Text.PadStart`: the source measures length in UTF-16 code units and the model in scalar values, so the two agree only on strings of Basic Multilingual Plane characters. The view pads only ASCII digit strings (lines 35-37).
- `Visible.SortTasks`, `Visible.SortWith`: they fix insertion as the algorithm. The engine's sort is only specified to be stable, so the model states the result, which is the same for every stable sort with this consistent comparator, and not the engine's steps or comparator calls.
- Task fields the view never reads are left out, as are titles that are not strings.

## Findings

| source | as written | input that shows it | evidently intended | confidence | as-written member | corrected member |
|---|---|---|---|---|---|---|
| frontend/src/TaskManager.jsx:263 | The bucket key of each day is read from `toISOString()` of local midnight, which is the UTC date. In a zone ahead of UTC that is the previous day. | UTC+1 on 2024-03-15, with one pending task due 2024-03-15: today's bucket counts 0. | Each bucket is keyed by its own local day, as the section heading "no shifting" and the local-day helpers intend, so today's bucket counts 1. | not executed | Timeline.TimelineAsWrittenShifted | Timeline.TimelineMeaning |
