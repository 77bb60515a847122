# Task manager core, modelled in Dafny

This project models the rule engine of a Next.js task manager: how a task's status is derived
from its dates, how the browser's task list is edited, how the list, calendar and notification
views select and order tasks, how the trash countdown and the settings page handlers behave, the
mock one-time-code and login rate limiter, the registration step machine, and the API routes that
list, create, reorder, trash, purge and configure tasks and users over a document store.

Timestamps are integer milliseconds. The current time is always a parameter (`now`). A
timestamp's local calendar day, which the source decides with `toDateString` or `isSameDay`, is
an abstract function `dayOf: int -> int`. The store is a class holding maps. The session is an
`Option<Session>`. Server calls made from the pages are replaced by their outcome.

One module per source file:

- `types.dfy` (`Types`): lib/types.ts
- `task_context.dfy` (`TaskContext`): contexts/task-context.tsx
- `task_list.dfy` (`TaskList`): components/task-list.tsx
- `notifications.dfy` (`Notifications`): lib/notifications.ts
- `calendar.dfy` (`Calendar`): components/ui/calendar.tsx
- `calendar_page.dfy` (`CalendarPage`): app/calendar/page.tsx
- `settings.dfy` (`Settings`): app/settings/page.tsx
- `auth_mock.dfy` (`AuthMock`): lib/auth-mock.ts
- `register.dfy` (`Register`): app/auth/register/page.tsx
- `task_model.dfy` (`TaskModel`): models/Task.ts
- `store.dfy` (`Store`): the document store the routes share
- `tasks_route.dfy`, `reorder_route.dfy`, `trash_route.dfy`, `cleanup_route.dfy`,
  `password_route.dfy` and `theme_route.dfy`: one per API route

There are also shared helpers:

- `Wrappers`: `Option`.
- `Time`: `Math.ceil` of a millisecond quotient.
- `Text`: JavaScript `trim`, ASCII `toLowerCase` and `includes`.
- `Seqs`: `filter`, and a stable sort by an integer key.

Where the intended behaviour, as the project's own description presents it, and the code disagree, the model
follows the code:

- `GET /api/tasks` returns all of the user's tasks, trashed ones included, sorted by `createdAt`
  descending. The intended listing is of active tasks only, sorted by `order`.
- `deleteTask` in the browser's task list is a hard removal. No soft-delete flag is set.
- A new task gets no `order` and no `isDeleted` flag. The Task schema declares neither, nor
  `deletedAt`.
- Reordering writes `order := index` for each listed id. The last occurrence of a repeated id
  wins in the model.

## Model

| member | source | states |
|---|---|---|
| Time.CeilDiv | lib/types.ts:28 | the result is the least `q` with `a <= q * b`: `(q-1)*b < a <= q*b` |
| Time.CeilDivUnique | lib/types.ts:28 | those two bounds determine the ceiling uniquely |
| Types.DaysUntilDue | lib/types.ts:28 | whole days left, rounded up: `(d-1)` days `< endDate - now <= d` days |
| Types.StatusByDays | lib/types.ts:30-51 | pending before the start whatever the end; after it, overdue iff `d < 0`, urgent iff `0..2`, approaching iff `3..7`, on-track iff `> 7` (boundaries 2 and 7 in the more urgent bucket) |
| Types.StatusByMillis | lib/types.ts:28-51 | the same buckets in milliseconds left: overdue iff at least a full day past the deadline, urgent iff within `(-1, 2]` days, approaching `(2, 7]`, on-track beyond 7 |
| Types.JustPastDeadlineIsUrgent | lib/types.ts:28-43 | less than one day past the deadline gives `daysUntilDue == 0` and status urgent, not overdue |
| TaskContext.PatchOverrides | contexts/task-context.tsx:65-67 | each of the eleven fields (id and createdAt included) is the patch's value when the patch supplies it and the task's otherwise; `updatedAt` is the edit time |
| TaskContext.PatchIdempotent | contexts/task-context.tsx:66 | applying the same patch twice at the same time equals applying it once |
| TaskContext.UpdatedShape | contexts/task-context.tsx:65-67 | `updateTask` keeps the length, leaves other ids alone, patches every matching task |
| TaskContext.DeletedShape | contexts/task-context.tsx:69-71 | `deleteTask` removes every task with the id and keeps all others in order; unknown id: unchanged |
| TaskContext.FileAddedShape | contexts/task-context.tsx:73-79 | the file is appended to the matching task's files only; other tasks unchanged |
| TaskContext.FileRemovedShape | contexts/task-context.tsx:81-89 | the matching task loses exactly the files with that id, the rest keep their order; other tasks unchanged |
| TaskContext.ToggleTwice | contexts/task-context.tsx:91-95 | toggling twice restores every `completed` flag; only `updatedAt` differs |
| TaskContext.UnknownIdIsNoOp | contexts/task-context.tsx:65-95 | an id matching no task leaves the list unchanged under update, toggle, delete and both file operations |
| TaskContext.AddKeepsIdsUnique | contexts/task-context.tsx:55-62 | appending a task with a fresh id keeps ids unique |
| TaskContext.TaskProvider.constructor | contexts/task-context.tsx:18 | the provider starts with an empty list |
| TaskContext.TaskProvider.AddTask | contexts/task-context.tsx:55-63 | exactly one task is appended at the end, with `createdAt == updatedAt == now`, earlier tasks unchanged |
| TaskContext.TaskProvider.UpdateTask | contexts/task-context.tsx:65-67 | the new list is `Updated(old)`; length and other tasks preserved |
| TaskContext.TaskProvider.DeleteTask | contexts/task-context.tsx:69-71 | the new list is `Deleted(old)`; no task with the id remains |
| TaskContext.TaskProvider.AddFileToTask | contexts/task-context.tsx:73-79 | the new list is `WithFileAdded(old)`; other tasks unchanged |
| TaskContext.TaskProvider.RemoveFileFromTask | contexts/task-context.tsx:81-89 | the new list is `WithFileRemoved(old)`; other tasks unchanged |
| TaskContext.TaskProvider.ToggleTaskCompletion | contexts/task-context.tsx:91-95 | `completed` is negated exactly on the matching tasks |
| TaskList.Rank | components/task-list.tsx:90-96 | `statusOrder` ranks lie in 0..4 |
| TaskList.SelectedMembers | components/task-list.tsx:73-87 | a task is listed iff it is in the input, has the requested `completed`, matches a non-blank query (lower-cased title or description contains the lower-cased untrimmed query), and, on the active list only, has the chosen status; the selection is a subsequence of the input |
| TaskList.BlankQueryKeepsAll | components/task-list.tsx:77-82 | a whitespace-only query filters nothing |
| TaskList.CompletedListIgnoresStatus | components/task-list.tsx:85-87 | with `showCompleted` the status filter has no effect |
| TaskList.ListOrdered | components/task-list.tsx:89-102 | the output is sorted by rank (overdue first), is a permutation of the selection, and tasks of equal rank keep their input order |
| TaskList.DueTextFor | components/task-list.tsx:305-309 | negative days give "n days overdue" with `n = -days`, zero gives "Due today", positive gives "n days remaining" |
| TaskList.DueTextAgreesWithStatus | components/task-list.tsx:241-244 | on a started task the due text says overdue exactly when the badge does, "Due today" only on urgent tasks, and more than 7 days remaining exactly on on-track ones |
| TaskList.StatusLabel | components/task-list.tsx:56-71 | the label is "Unknown" exactly for names that are not one of the five statuses |
| TaskList.StatusColor | components/task-list.tsx:39-54 | the gray class is returned exactly for names that are not one of the five statuses |
| TaskList.BadgesDistinct | components/task-list.tsx:39-71 | the five statuses get five different labels and five different colours |
| Text.TrimStart | components/task-list.tsx:77 | the result is a suffix of the input, the removed prefix is whitespace, and the result does not start with whitespace |
| Text.TrimEnd | components/task-list.tsx:77 | the result is a prefix of the input, the removed suffix is whitespace, and the result does not end with whitespace |
| Text.TrimIdempotent | models/Task.ts:30-34 | trimming a trimmed string changes nothing |
| Text.TrimEmptyIffBlank | components/task-list.tsx:77 | a string trims to empty iff all of it is whitespace |
| Text.Lower | components/task-list.tsx:78-80 | same length, each character lower-cased |
| Text.IncludesIffOccurs | components/task-list.tsx:80 | `includes` holds iff the substring occurs at some offset |
| Seqs.Filter | components/task-list.tsx:74 | the result holds exactly the input elements that satisfy the predicate, and no more of each than the input |
| Seqs.FilterIsSubsequence | lib/notifications.ts:8 | a filter keeps its elements' relative order |
| Seqs.SubsequenceTransitive | components/task-list.tsx:73-87 | a subsequence of a subsequence is a subsequence, so chained filters keep the input order |
| Seqs.FilterPartition | components/ui/calendar.tsx:171-173 | filtering by a predicate and by its negation splits the input into two parts that together are a permutation of it |
| Seqs.SortBy | components/task-list.tsx:98-102 | the sort is a permutation of its input |
| Seqs.SortBySorted | components/task-list.tsx:98-102 | the sort's output is in non-decreasing key order |
| Seqs.SortByStable | components/task-list.tsx:98-102 | the sort is stable: the elements of each key keep their input order |
| Notifications.CriticalTasksExact | lib/notifications.ts:4-17 | critical iff open and (due within `[now, now+24h]` or priority "high"); completed tasks never; a subsequence of the input |
| Notifications.AlertIffCritical | lib/notifications.ts:19-45 | an alert is shown iff some task is critical; combined message iff both counts are positive, otherwise the one positive count's message; the printed counts are the numbers of critical tasks of high priority and of critical tasks due within a day |
| Notifications.UrgencyNote | lib/notifications.ts:53-64 | the suffix's precedence is high priority > due today > due tomorrow > none |
| Notifications.LoginAlert | lib/notifications.ts:47-72 | nothing when no task is critical; otherwise one line per critical task, in order, with its title and the suffix `UrgencyNote` gives that task |
| Calendar.FirstDayOfWeek | components/ui/calendar.tsx:31-33 | the weekday of the 1st is in 0..6 |
| Calendar.MarchYearLength | components/ui/calendar.tsx:31-33 | the day count from one 1 March to the next is 366 exactly in years whose February has a 29th, else 365 |
| Calendar.NextMonthStart | components/ui/calendar.tsx:31-34 | the 1st of a month falls `DaysIn` days after the 1st of the month before |
| Calendar.NextYearStart | components/ui/calendar.tsx:31-34 | 1 January falls 31 days after the 1 December before it |
| Calendar.FirstDayOfWeekStep | components/ui/calendar.tsx:31-33 | the weekday of each 1st is the previous 1st's weekday plus that month's length, modulo 7, also across a year end |
| Calendar.EpochIsThursday | components/ui/calendar.tsx:31-33 | 1 January 1970 is day 0 and a Thursday (weekday 4) |
| Calendar.LastDayBefore | components/ui/calendar.tsx:32-38 | day 0 of a month (with the month carried into the year) has 28..31 days |
| Calendar.DaysInMonthIsViewedMonth | components/ui/calendar.tsx:32-34 | `daysInMonth` is the length of the viewed month |
| Calendar.GridShape | components/ui/calendar.tsx:39-46 | `firstDayOfWeek` leading cells, consecutive, the last equal to `daysInPrevMonth`; the three parts fill 42 cells; trailing cells are 1, 2, ... |
| Calendar.GridAsWrittenRightIff | components/ui/calendar.tsx:37-41 | as written, the leading cells are right iff there are none or the month two back is as long as the previous one |
| Calendar.GridAsWrittenMarch2025 | components/ui/calendar.tsx:37-41 | March 2025 starts on a Saturday; as written its leading cells read 26..31, where the last six days of February 2025 are 23..28 |
| Calendar.GridPrevFillEndsPreviousMonth | components/ui/calendar.tsx:36-41 | corrected grid: the leading cells are days of the previous month, ending on its last day |
| Calendar.CalendarView.constructor | components/ui/calendar.tsx:23-24 | the view and the current date start at today |
| Calendar.CalendarView.HandleDateClick | components/ui/calendar.tsx:67-73 | a click outside the viewed month is ignored; inside it selects `(year, month, day)`, which is passed on |
| Calendar.TasksForDayExact | components/ui/calendar.tsx:86-93 | a task is on a day iff `startDate <= day's midnight <= endDate`, in input order |
| Calendar.IndicatorFor | components/ui/calendar.tsx:98-116 | `isStart` and `isEnd` iff the same calendar day, `isMiddle` iff strictly between, hex colour defaults to `#3b82f6`, fallback class with precedence completed > start > end > other |
| Calendar.TaskIndicators | components/ui/calendar.tsx:95-118 | one indicator per task of the day, in order |
| Calendar.OrderedIndicatorsPermutes | components/ui/calendar.tsx:171-173 | start-first ordering is a permutation of the indicators |
| Calendar.OrderedIndicatorsStartsFirst | components/ui/calendar.tsx:171-173 | no start indicator comes after a non-start one |
| Calendar.OrderedIndicatorsKeepsGroupOrder | components/ui/calendar.tsx:171-173 | the leading start bars and the trailing other bars are each a subsequence of the input, so each group keeps its original order |
| Calendar.VisibleBars | components/ui/calendar.tsx:197 | the first `min(3, n)` indicators are drawn |
| Calendar.MoreNote | components/ui/calendar.tsx:210-212 | "+k more" is shown iff there are more than 3, with `k + 3 = n` |
| Calendar.FallbackClassNeverShown | components/ui/calendar.tsx:200-206 | every drawn bar uses a hex colour, so the fallback classes are never shown |
| CalendarPage.SelectedDateTasks | app/calendar/page.tsx:27 | no selected date gives the empty list |
| CalendarPage.SelectedDateTasksExact | app/calendar/page.tsx:17-25 | a task is listed iff it starts or ends on the selected day or spans the selected instant; input order is kept |
| CalendarPage.CalendarBarsAreListed | app/calendar/page.tsx:18-24 | every task with a bar in a day cell is also listed when that day is selected |
| CalendarPage.SameDayTaskHasNoBar | app/calendar/page.tsx:21-23 | a 10:00-11:00 task is listed for its day but has no bar in that day's cell |
| Settings.DaysUntilPermanentDeletion | app/settings/page.tsx:240-245 | days left is never negative |
| Settings.DaysLeftByElapsed | app/settings/page.tsx:240-245 | 30 at deletion; 0 iff 30 days have passed; otherwise `d` with the time left in `(d-1, d]` days |
| Settings.DaysLeftMonotone | app/settings/page.tsx:240-245 | days left never increases as time passes |
| Settings.WarningAfter23Days | app/settings/page.tsx:428 | the "days left" badge shows iff 23 days or more have passed since deletion |
| Settings.CheckPasswordForm | app/settings/page.tsx:113-121 | mismatch first; otherwise a new password under 6 characters is refused; otherwise the request is sent |
| Settings.PriorityColorFallback | app/settings/page.tsx:226-227 | every value other than high, medium and low gets the gray class |
| Settings.PriorityColorsDistinct | app/settings/page.tsx:217-228 | high, medium and low each get a class that no other value gets |
| Settings.WithoutTrashTaskExact | app/settings/page.tsx:183-188 | exactly the tasks with that id leave the list, the rest keep their order; repeating changes nothing |
| Settings.SettingsPage.constructor | app/settings/page.tsx:39-51 | the initial theme is 'system', nothing loading, an empty trash list and an empty form |
| Settings.SettingsPage.LoadData | app/settings/page.tsx:61-80 | an ok theme response sets the theme ('system' when empty), an ok trash response replaces the list, and a failed one changes nothing |
| Settings.SettingsPage.HandleThemeChange | app/settings/page.tsx:84-108 | the theme is adopted and applied only on an ok response; loading is cleared on every path |
| Settings.SettingsPage.HandlePasswordChange | app/settings/page.tsx:110-149 | a guard failure sends nothing and changes nothing; a sent request carries the current and new password, an ok response clears the form, and loading is cleared |
| Settings.SettingsPage.HandleEmptyTrash | app/settings/page.tsx:151-171 | an ok response empties the list; loading is cleared and the dialog closed on every path |
| Settings.SettingsPage.HandleRestore | app/settings/page.tsx:173-193 | an ok response sets the list to the render-captured list without that id (not the current list); any other outcome leaves the list unchanged |
| Settings.SettingsPage.HandlePermanentDelete | app/settings/page.tsx:195-215 | an ok response sets the list to the render-captured list without that id (not the current list); any other outcome leaves the list unchanged |
| Settings.OverlappingRestoresAsWritten | app/settings/page.tsx:185 | two restores opened on `[a, b]` and answered ok in turn end with `[a]`: the first removal is lost |
| Settings.RemovalsFromCurrentCompose | app/settings/page.tsx:185 | removals applied to the current list commute and keep exactly the tasks with neither id |
| AuthMock.NatToString | lib/auth-mock.ts:13 | `String(n)` is a non-empty run of decimal digits without a leading zero |
| AuthMock.ParseNatToString | lib/auth-mock.ts:13 | reading the digits back gives the number |
| AuthMock.NatToStringLength | lib/auth-mock.ts:13 | a number with `k+1` digits prints as `k+1` characters |
| AuthMock.CodeShape | lib/auth-mock.ts:13 | every code is 6 characters and denotes a number in [100000, 999999]; distinct draws give distinct codes |
| AuthMock.VerifyOtp | lib/auth-mock.ts:18-23 | success iff a code is stored for the e-mail and equals the given one; success deletes it and failure keeps the table |
| AuthMock.VerifyIsOneShot | lib/auth-mock.ts:21 | after a success, verifying the same e-mail fails with any code |
| AuthMock.FailedVerifyKeepsCodes | lib/auth-mock.ts:21 | a failed verify leaves the stored code intact, so the right code still works |
| AuthMock.IssuedCodeOnly | lib/auth-mock.ts:12-23 | after a request, only the decimal form of the issued number verifies; a zero-padded form fails |
| AuthMock.LoginStep | lib/auth-mock.ts:30-43 | locked out iff `count >= 5` and under 30 s since the last failure, with no state change even for valid credentials; empty credentials count one more failure and set `last = now`; success resets `count` and keeps `last` |
| AuthMock.FiveFailuresLockOut | lib/auth-mock.ts:30-40 | five empty-credential attempts from a fresh limiter lock out every attempt made within 30 s of the fifth |
| AuthMock.RegisterUser | lib/auth-mock.ts:25-28 | every payload is accepted |
| AuthMock.AuthService.constructor | lib/auth-mock.ts:9-10 | an empty code table and a zero limiter |
| AuthMock.AuthService.RequestEmailOtp | lib/auth-mock.ts:12-16 | stores the code for the e-mail, replacing any earlier one |
| AuthMock.AuthService.VerifyEmailOtp | lib/auth-mock.ts:18-23 | the result and the new table are those of `VerifyOtp` |
| AuthMock.AuthService.Login | lib/auth-mock.ts:30-43 | the result and the new limiter are those of `LoginStep` |
| Register.SchemaAccepts | app/auth/register/page.tsx:16-26 | values pass iff the e-mail is valid, the username has 3 characters, the password has 8 and the confirmation equals it; a mismatch is reported whenever the passwords differ |
| Register.RegisterPage.constructor | app/auth/register/page.tsx:31-39 | the page starts at the 'form' step with nothing submitted |
| Register.RegisterPage.Submit | app/auth/register/page.tsx:41-50 | invalid values never reach `onSubmit`; valid ones request a code, record the e-mail, move to 'otp' and leave `submitting` false |
| Register.RegisterPage.HandleVerify | app/auth/register/page.tsx:52-70 | a wrong code sets the error, keeps the step and registers nothing; a right one registers the form's values and moves to 'done' |
| Register.RegisterPage.ChangeEmail | app/auth/register/page.tsx:151 | "Change email" returns to 'form' |
| TaskModel.ParsePriority | models/Task.ts:46-50 | a priority is accepted iff it is low, medium or high |
| TaskModel.PriorityRoundTrip | models/Task.ts:46-50 | names and the parser are inverse to each other |
| TaskModel.ValidateAttachment | models/Task.ts:22-27 | an attachment is accepted iff name, url, size and type are all present (strings non-empty), and the stored one holds exactly those values |
| TaskModel.SaveNewAccepts | models/Task.ts:29-59 | a new task saves iff its trimmed title is non-empty, its priority (if given) is in the enum, its owner is given and every attachment is valid |
| TaskModel.SavedDefaults | models/Task.ts:39-59 | `completed` defaults to false and priority to medium; both timestamps are the save time; not trashed, no order |
| TaskModel.SavedTitleAndPriority | models/Task.ts:30-34 | the stored title is the trimmed title, non-empty and fully trimmed; a given priority is stored under its own name |
| Store.LocalPart | app/api/tasks/route.ts:21 | `email.split('@')[0]` is the prefix before the first '@' |
| Store.Entries | app/api/tasks/route.ts:27 | the store's tasks, each once, in ascending id order |
| Store.QueryExact | app/api/tasks/route.ts:27 | a query returns every matching task exactly once and nothing else |
| Store.RemoveWhereExact | app/api/tasks/trash/route.ts:49-56 | `deleteMany` keeps exactly the non-matching tasks, unchanged; the count equals the number removed; a second run removes nothing |
| Store.Database.FindOrCreateUser | app/api/tasks/route.ts:17-25 | an existing user is returned unchanged; a missing one is created with the session's name, or else the e-mail's local part |
| Store.Database.InsertTask | app/api/tasks/route.ts:65 | the task is stored under a fresh id |
| TasksRoute.UserTasksExact | app/api/tasks/route.ts:27 | the listing holds exactly the user's tasks, trashed ones included, sorted by `createdAt` descending |
| TasksRoute.PostSaves | app/api/tasks/route.ts:54-66 | a POST saves iff the trimmed title is non-empty and the priority, if given, is valid |
| TasksRoute.PostSavedDefaults | app/api/tasks/route.ts:54-66 | a saved POST task is the user's, medium by default, with the given due date, not completed, not deleted, stamped with the request time |
| TasksRoute.Get | app/api/tasks/route.ts:8-33 | 401 without a session e-mail and no change; otherwise the user is upserted and the listing returned with 200 |
| TasksRoute.Post | app/api/tasks/route.ts:35-71 | 401 and no change without a session e-mail; otherwise the user is upserted; 201 with the stored task, or 500 with no task when validation fails |
| ReorderRoute.LastIndex | app/api/tasks/reorder/route.ts:31-37 | the last position of an id in the list |
| ReorderRoute.ReorderedExact | app/api/tasks/reorder/route.ts:31-37 | only the user's non-trashed listed tasks change, and only in `order` and the automatic `updatedAt` |
| ReorderRoute.ReorderDistinct | app/api/tasks/reorder/route.ts:31-37 | with distinct ids every eligible task at position `i` gets `order = i` |
| ReorderRoute.ReorderAgain | app/api/tasks/reorder/route.ts:31-37 | sending the same list again gives the same orders |
| ReorderRoute.LastIndexSnoc | app/api/tasks/reorder/route.ts:31-37 | appending an id makes its last position the new one and leaves every other id's last position where it was |
| ReorderRoute.ReorderedStep | app/api/tasks/reorder/route.ts:31-37 | one more write extends the writes for a prefix of the list |
| ReorderRoute.Patch | app/api/tasks/reorder/route.ts:8-46 | 401, then 404 without a user, then 400 for a missing or empty list, each with no change; otherwise 200 and the store is `Reordered` |
| TrashRoute.TrashListingMembers | app/api/tasks/trash/route.ts:22-25 | the trash listing is a permutation of exactly the user's trashed tasks |
| TrashRoute.TrashListingOrder | app/api/tasks/trash/route.ts:25 | the listing runs by `deletedAt` descending, with tasks lacking it last |
| TrashRoute.EmptyTrashKeeps | app/api/tasks/trash/route.ts:49-52 | emptying keeps every active task and every other user's task unchanged, and leaves no trashed task of the user |
| TrashRoute.Get | app/api/tasks/trash/route.ts:8-32 | 401 without a session e-mail, 404 without a user, otherwise 200 with the trash listing |
| TrashRoute.Delete | app/api/tasks/trash/route.ts:34-62 | 401 or 404 with no change; otherwise the user's trashed tasks are removed and `deletedCount` is their number |
| CleanupRoute.SweepExact | app/api/cleanup/route.ts:10-16 | the sweep removes exactly the trashed tasks deleted strictly before `now - 30 days`, across all users; a task deleted exactly at the cutoff stays, active tasks stay unchanged |
| CleanupRoute.SweepAgainRemovesNothing | app/api/cleanup/route.ts:13-21 | a rerun at the same or an earlier time removes nothing |
| CleanupRoute.Post | app/api/cleanup/route.ts:5-26 | without any session check, removes the expired tasks and reports their number with 200 |
| PasswordRoute.StatusOf | app/api/users/password/route.ts:13-56 | 401 exactly when signed out, 404 exactly when the user is missing, 200 exactly on a change, 400 exactly for the four other refusals |
| PasswordRoute.DecideLadder | app/api/users/password/route.ts:13-45 | a change goes through iff signed in, both passwords given, the new one at least 6 characters, a stored password exists and the current one matches it; each rung (signed out, a password missing, new one too short, no stored password, wrong current password) yields its own refusal once the earlier rungs pass |
| PasswordRoute.Patch | app/api/users/password/route.ts:8-61 | every refusal leaves the users unchanged; a change replaces only the stored password, by the hash of the new one |
| ThemeRoute.EffectiveTheme | app/api/users/theme/route.ts:21 | the stored theme, or 'system' when none is stored |
| ThemeRoute.Get | app/api/users/theme/route.ts:7-26 | 401 without a session e-mail, 404 without a user, otherwise 200 with the effective theme |
| ThemeRoute.DecideTheme | app/api/users/theme/route.ts:33-51 | the theme is set iff signed in, the value is light, dark or system, and the user exists; an invalid value is refused before the user lookup |
| ThemeRoute.Patch | app/api/users/theme/route.ts:28-58 | 401, 400 or 404 leave the users unchanged; otherwise only `theme` is written and it is echoed |

## Findings

| source | as written | input that shows it | evidently intended | confidence | as-written member | corrected member |
|---|---|---|---|---|---|---|
| components/ui/calendar.tsx:37-38 | `daysInPrevMonth` is read from `new Date(year, month - 1, 0)`, the last day of the month two before the viewed one | March 2025 (month 2, first day a Saturday): the six leading cells read 26..31 instead of February's 23..28 | `new Date(year, month, 0)`, the last day of the previous month | high (not executed) | Calendar.GridAsWrittenMarch2025 | Calendar.GridPrevFillEndsPreviousMonth |
| app/settings/page.tsx:185-207 | an ok restore or permanent delete sets the list to `trashTasks.filter(...)` over the list its render captured, and the dialogs close without awaiting the request | trash `[a, b]`; restore `a`, then restore `b` before `a`'s response; both ok: the list ends as `[a]` | `setTrashTasks(prev => prev.filter(...))`, so both removals hold | medium (not executed) | Settings.OverlappingRestoresAsWritten | Settings.RemovalsFromCurrentCompose |

## Left out

- Wall-clock time: `new Date()` and `Date.now()` are the parameter `now`. `dueSoonTasks` in lib/notifications.ts:25-29 reads the clock again, and so does `addTask` in contexts/task-context.tsx:59-60 (once for `createdAt`, once for `updatedAt`); the model uses the same `now` for both reads, so `AddTask`'s `createdAt == updatedAt` holds up to the milliseconds between the two reads.
- Local-time semantics: `toDateString`, `isSameDay`, time zones and daylight saving are the abstract `dayOf`. `setDate(getDate() - 30)` in app/api/cleanup/route.ts:11-12 is exactly 30 days of milliseconds in the model, so a daylight-saving shift inside the window is not modelled.
- `navigateMonth` (components/ui/calendar.tsx:55-65): its `setMonth` overflow on the 29th to 31st is local-time behaviour and is not modelled.
- Clicks on leading and trailing cells: the component never wires them to `handleDateClick`. The model still lets `HandleDateClick` be called with `isCurrentMonth == false`.
- localStorage and JSON load/save of the task list (contexts/task-context.tsx:23-53).
- `crypto.randomUUID` is the `freshId` parameter of `AddTask`. `Math.random` in the code draw is the `roll` parameter.
- bcrypt `compare` and `hash` are function parameters. The salt of `hash` is folded into that function.
- `Notifications.LoginAlert`: the line text `• title (suffix)` and the `join('\n')` are kept as (title, urgency) pairs. `showCriticalTaskNotification`'s exact message strings are kept as the `Alert` variants with their counts.
- `Store.Database.FindOrCreateUser`: the User schema's required `name` (models/User.ts:13-16) is not enforced. A session without a name whose e-mail starts with '@' would make the source's `User.create` throw and the route answer 500; the model creates a user named "". The only sign-in provider, Google, does not produce such an e-mail.
- Toasts (`notifySuccess`, `notifyError`, `notifyWarning`) and `console.error` are not modelled.
- `Text.LowerChar`: `toLowerCase` is modelled on ASCII letters only. Other letters are left unchanged.
- String lengths count Unicode scalar values; JavaScript's `.length` counts UTF-16 code units. The difference shows only for characters outside the Basic Multilingual Plane, in the 3-, 6- and 8-character minimums.
- The e-mail format check of the registration schema is the `isEmail` parameter. Only its verdict is modelled.
- Floating point: every quotient of milliseconds is modelled exactly on integers. `Math.ceil` of a double agrees with it for realistic timestamps.
- `Settings.DaysUntilPermanentDeletion`: a trash entry without a parseable `deletedAt` (NaN in the source) is not modelled; `deletedAt` is always a number.
- Server errors: failed database connections and unparseable request bodies (the 500 paths) are not modelled. Neither are ids that are not valid ObjectIds, which make reorder fail with 500 after some writes may have run. The POST validation failure is modelled as 500.
- `ReorderRoute.Patch`: the source runs the writes concurrently with `Promise.all`. The model runs them in list order, so for a repeated id the last position wins; the source leaves that race unresolved.
- Mongoose strict mode: the Task and User schemas declare no `isDeleted`, `deletedAt`, `order`, `password` or `theme` fields. The model stores the values the routes write and filters on the fields they query, as if those fields were declared.
- Mongo sort ties: the store lists tasks in ascending id order before the stable sort. This is one valid order for tasks with equal `createdAt` or `deletedAt`.
- The User document's own `updatedAt`: not modelled. Task `updatedAt` is maintained.
- The restore and permanent-delete endpoint `/api/tasks/trash/[id]` and the single-task route `/api/tasks/[id]` are not part of this model. The settings page's handlers see them only as an outcome.
- Forms, file viewers, base64 attachments, layout and UI-only pages, the login page, lib/utils.ts and auth configuration are not part of this model.
