# Daily / weekly / monthly goals: a Dafny model

This project models the logic of a goal-tracking dashboard. The dashboard lets a
user keep daily, weekly and monthly goals, each `not-started`, `in-progress` or
`completed`. The model covers:

- **Goal model** (`types.dfy`): the three goal kinds as one tagged datatype,
  the statuses and the time frames.
- **Calendar** (`calendar.dfy`, `date_utils.dfy`):
  - the JavaScript `Date` getters and setters the code uses, read against one
    fixed local proleptic Gregorian calendar, in integer milliseconds;
  - `getWeekNumber`, proved to be the ISO 8601 week number (ISO 8601:2004,
    section 4.1.4, week dates), checked against an independent definition;
  - `getWeekRange`, proved to be the Monday-to-Sunday span of a date.
- **Status lifecycle** (`lifecycle.dfy`, `store.dfy`): the per-id status update
  that stamps or clears `completedAt`, the checkbox rule, and the observer that
  remembers each goal's last non-completed status in `prevStatuses`. The
  overview and calendar tabs share this state as one class, `GoalStore`. The
  observer runs at the end of each handler.
- **Goal card and goal list** (`goal_card.dfy`, `goal_list.dfy`): the card's
  own `prevStatus` memory and the events it emits, and the list's local copy
  of its goals with the notification to its parent.
- **Buckets** (`buckets.dfy`, `calendar_view.dfy`, `overview.dfy`): the three
  order-keeping filters of `getGoalsForDate`, the sections each calendar view
  mode renders, the selected date, and the overview's seven week days.
- **Server actions** (`goal_actions.dfy`): the row `createGoal` inserts, the
  `set` object of `updateGoalStatus`, and the `{ success, data | error }`
  results. The database is a function parameter.
- **Creation form** (`add_goal_form.dfy`): the typed input `handleSubmit`
  builds, the reset after a success, and the week range shown for weekly
  goals.
- **Fixtures** (`mock_data.dfy`): the seeded goals, the current week's dates,
  and the file's own Sunday-start week number.

Three facts about the code are stated as lemmas:

- The form's 1-based month is read by the 0-based bucket filter.
- A weekly goal's `year` is the calendar year, not the ISO week-based year.
- The form never sends a missing description.

They are lemmas and not findings: in this code the goals the form creates
never reach the buckets, which hold only the fixtures, so no wrong display
follows from them yet.

"Now" (`new Date()`) is a parameter everywhere.

## Model

| member | source | states |
|---|---|---|
| Types.ParseStatus | src/types/index.ts:1 | a string is a status exactly when it is `completed`, `in-progress` or `not-started`, and it parses back to that name |
| Types.StatusNameRoundTrip | src/types/index.ts:1 | every status's name parses back to the status |
| Types.ParseTimeFrame | src/types/index.ts:28 | a string is a time frame exactly when it is `today`, `week` or `month`, and it parses back to that name |
| Calendar.MsOfDay | src/lib/date-utils.ts:12 | the time of day is below one day and rebuilds the timestamp with the day number |
| Calendar.YearOf | src/lib/date-utils.ts:3-6 | `getFullYear()`: the one year whose January 1 is on or before the day and whose next January 1 is after it |
| Calendar.MonthOf | src/lib/date-utils.ts:3 | `getMonth()`: the one 0-based month whose first day of the year is on or before the day of the year and whose next month starts after it |
| Calendar.YearStartStep | src/lib/date-utils.ts:6 | the next January 1 is 366 days on after a leap year and 365 days after any other |
| Calendar.CivilDaysRoundTrip | src/lib/date-utils.ts:2-4 | a valid (year, month, day) sent through the day number comes back unchanged |
| Calendar.DaysCivilRoundTrip | src/lib/date-utils.ts:2-4 | a day number sent through its calendar date comes back unchanged |
| Calendar.CivilFromDays | src/lib/date-utils.ts:3 | getFullYear, getMonth and getDate of a day: a valid calendar date whose year holds the day |
| Calendar.DaysFromCivil | src/lib/date-utils.ts:3 | `Date.UTC(year, month, day)` as a day number: for a day within the month, a day of that year (with CivilDaysRoundTrip, the day whose date it is) |
| Calendar.CivilInjective | src/lib/date-utils.ts:2-4 | two days have the same calendar date exactly when they are the same day |
| Calendar.CivilOfAt | src/lib/date-utils.ts:2-4 | any time on the day of a date reads back as that date |
| Calendar.IsoDayOfWeek | src/lib/date-utils.ts:5 | `getDay()`, with Sunday read as 7, lies in 1..7 and agrees with the weekday modulo 7 |
| Calendar.DayOfWeek | src/lib/date-utils.ts:15 | `getDay()` lies in 0..6 and is 0 (Sunday) exactly on the days 1970-01-04 + 7k |
| Calendar.WithTime | src/lib/date-utils.ts:12 | `setHours(h, m, s, ms)` with a time inside the day keeps the day and sets that time of day |
| Calendar.WithDayOfMonth | src/lib/date-utils.ts:16-21 | `setDate(n)` moves the date by n − getDate() days, across month and year ends, and keeps the time of day |
| Calendar.WithDayOfMonthShift | src/lib/date-utils.ts:16-21 | `setDate(getDate() + k)` moves exactly k days and keeps the time of day, across month and year ends |
| DateUtils.CeilDiv | src/lib/date-utils.ts:7 | `Math.ceil(n / k)` is the least q with n <= q * k |
| DateUtils.ThursdayOf | src/lib/date-utils.ts:5 | the shifted day is a Thursday at most three days away |
| DateUtils.WeekNumber | src/lib/date-utils.ts:1-8 | the week number lies in 1..53 |
| DateUtils.WeekNumberOfDayIsIso | src/lib/date-utils.ts:5-7 | the Thursday-and-ceiling formula equals the ISO 8601 week: weeks counted from the week holding the first Thursday of the week-based year |
| DateUtils.WeekNumberIsIso | src/lib/date-utils.ts:1-8 | getWeekNumber of a timestamp is the ISO 8601 week number of its date |
| DateUtils.WeekNumberIgnoresTime | src/lib/date-utils.ts:2-4 | two times on the same day get the same week number |
| DateUtils.WeekNumberConstantOnWeek | src/lib/date-utils.ts:5-7 | any day from a Monday to the next Sunday, at any time of day, gets the Monday's week number |
| DateUtils.ThursdayInWeek | src/lib/date-utils.ts:5 | every day from a Monday to the next Sunday is shifted to the Thursday three days after the Monday |
| DateUtils.WeekOneHoldsFirstThursday | src/lib/date-utils.ts:5-7 | week 1 is exactly the week holding the first Thursday of the week-based year |
| DateUtils.WeekOneOfDay | src/lib/date-utils.ts:5-7 | the ISO 8601 week of a day is 1 exactly when its Thursday is the first Thursday of its week-based year |
| DateUtils.NoThursdayBeforeFirst | src/lib/date-utils.ts:5-6 | no Thursday of a year comes before that year's first Thursday |
| DateUtils.WeekNumberNextWeek | src/lib/date-utils.ts:5-7 | seven days later the number rises by one, unless the week-based year changes |
| DateUtils.FirstThursday | src/lib/date-utils.ts:6 | the first Thursday of a year is a Thursday in that year, within its first seven days |
| DateUtils.MondayOf | src/data/mockData.ts:9 | going back `daysToMonday` days (6 for Sunday, day - 1 otherwise) lands on a Monday at most six days before the day |
| DateUtils.WeekRange | src/lib/date-utils.ts:10-27 | getWeekRange: start at midnight on the Monday of the date's week, end at midnight six days later |
| DateUtils.WeekRangeIsMondayToSunday | src/lib/date-utils.ts:10-27 | getWeekRange gives midnight of the Monday of the date's week and midnight of the Sunday six days later |
| DateUtils.WeekRangeDays | src/lib/date-utils.ts:10-27 | getWeekRange's start falls on the Monday of the date's week and its end on the Sunday six days later |
| DateUtils.WeekRangeSpan | src/lib/date-utils.ts:10-27 | start is a Monday at 00:00, end is a Sunday at 00:00 six days later, and the date's day lies between them |
| DateUtils.MondayToSundaySpan | src/lib/date-utils.ts:20-21 | six days after a Monday at midnight is a Sunday at midnight |
| DateUtils.WeekRangeSharesWeekNumber | src/lib/date-utils.ts:10-27 | every day from the range's start to its end, at any time, has the week number of the date the range was built from |
| DateUtils.MondayWeekSameNumber | src/lib/date-utils.ts:5-7 | every day of a date's Monday-to-Sunday week has the date's week number |
| DateUtils.WeekRangeOfMidnight | src/lib/date-utils.ts:10-27 | the range of a midnight holds that day, and every day in it has that day's ISO 8601 week number |
| Lifecycle.WithStatus | src/components/dashboard/Overview.tsx:106-110 | the new goal has the new status, `completedAt` present iff completed (and then equal to now), and every other field kept |
| Lifecycle.UpdateStatusById | src/components/dashboard/Overview.tsx:102-114 | same length; goals with the id get the status and a consistent `completedAt`, all else kept; goals without the id are unchanged |
| Lifecycle.UpdateKeepsGoals | src/components/dashboard/Overview.tsx:103-113 | the update keeps the ids in order, every field except status and completedAt, and the completedAt consistency of the collection |
| Lifecycle.UpdateIdempotent | src/components/dashboard/Overview.tsx:103-113 | setting the same status twice equals setting it once |
| Lifecycle.UpdateConcat | src/components/dashboard/Overview.tsx:35-39 | the update distributes over the concatenation of the collections |
| Lifecycle.UpdateMissingId | src/components/dashboard/Overview.tsx:104-112 | a collection without the id is left unchanged |
| Lifecycle.CheckboxStatus | src/components/dashboard/Overview.tsx:148-156 | checking gives `completed`; unchecking gives the remembered status, else `in-progress`; with a table that never holds `completed`, the result is completed iff checked |
| Lifecycle.Remember | src/components/dashboard/Overview.tsx:42-46 | one forEach step: keys only added, a non-completed goal's status recorded under its id, other entries kept, `completed` never introduced |
| Lifecycle.Recorded | src/components/dashboard/Overview.tsx:34-49 | the observer over all goals in order: keys only added, and a table without `completed` stays without it |
| Lifecycle.RecordedKeys | src/components/dashboard/CalendarView.tsx:48-63 | the observer's keys are the old keys plus the ids of the non-completed goals: keys are only added |
| Lifecycle.RecordedNeverCompleted | src/components/dashboard/Overview.tsx:42-46 | the observer never stores `completed` |
| Lifecycle.RecordedOtherIds | src/components/dashboard/Overview.tsx:40-46 | an id no goal carries keeps its old entry or its absence |
| Lifecycle.RecordedAt | src/components/dashboard/Overview.tsx:40-46 | with distinct ids, a non-completed goal's status is recorded, and a completed goal keeps its earlier entry |
| Lifecycle.RecordedIdempotent | src/components/dashboard/Overview.tsx:34-49 | running the observer again on unchanged goals changes nothing |
| Lifecycle.RecordPrevStatuses | src/components/dashboard/Overview.tsx:40-48 | the forEach loop computes the recorded table of the goals in order |
| Lifecycle.CheckUncheckRoundTrip | src/components/dashboard/Overview.tsx:144-165 | after the observer has seen the goals, checking then unchecking a non-completed goal (observer in between) restores every goal exactly, completedAt cleared |
| Buckets.Filter | src/components/dashboard/CalendarView.tsx:66-85 | the filter holds exactly the goals that pass, and is no longer than its input |
| Buckets.FilterIsSubsequence | src/components/dashboard/CalendarView.tsx:66-85 | a filter keeps the original order |
| Buckets.FilterCounts | src/components/dashboard/CalendarView.tsx:66-85 | a filter keeps every occurrence of a passing goal and no occurrence of another |
| Buckets.FilterKeepsAll | src/data/mockData.ts:36-147 | a filter every goal passes returns the whole collection |
| Buckets.SameCalendarDayIsSameDay | src/components/dashboard/CalendarView.tsx:67-69 | equal `toDateString()` means the same day number, and back |
| Buckets.OnDay | src/components/dashboard/CalendarView.tsx:67-69 | the daily filter holds exactly for a daily goal whose date has the day number of the date |
| Buckets.ActiveOn | src/components/dashboard/CalendarView.tsx:71-73 | the weekly filter holds only for a weekly goal, and then the date's day lies between the start's and the end's days |
| Buckets.InMonthOf | src/components/dashboard/CalendarView.tsx:75-78 | the monthly filter holds only for a monthly goal with a month in 0..11 whose year holds the date |
| Buckets.GoalsForDate | src/components/dashboard/CalendarView.tsx:66-85 | each bucket is a subsequence of its collection and holds exactly its goals on the day, active on the date (inclusive timestamps) and in the 0-based month and year |
| Buckets.ShownGoals | src/components/dashboard/CalendarView.tsx:300-354 | day view lists the daily and weekly buckets, week view the weekly bucket, month view the monthly bucket |
| Buckets.ShownBelongToDate | src/components/dashboard/CalendarView.tsx:300-354 | a goal is shown in a view mode iff it is in that mode's collections and passes that mode's filters for the date |
| Buckets.DailyBucketExclusive | src/components/dashboard/CalendarView.tsx:67-69 | a daily goal is in the bucket of exactly its own day |
| Buckets.WeeklyBucketWholeDays | src/components/dashboard/CalendarView.tsx:71-73 | a Monday 00:00 to Sunday 23:59:59.999 weekly goal is active on exactly those seven days |
| Buckets.WeeklyBucketMidnightEnd | src/components/dashboard/CalendarView.tsx:71-73 | with an end at Sunday 00:00 (getWeekRange's end), the Sunday is active only at midnight |
| Buckets.JuneGoalScenario | src/components/dashboard/CalendarView.tsx:75-78 | a goal for month 5 of 2024 shows on 2024-06-15 and not on 2024-07-01 |
| Store.GoalStore.constructor | src/components/dashboard/Overview.tsx:23-49 | the seeded collections, with the table the observer's first run leaves; the store invariant holds |
| Store.GoalStore.Observe | src/components/dashboard/Overview.tsx:34-49 | the table becomes the recorded table of all goals; it never holds `completed` and is a fixed point of the observer |
| Store.GoalStore.HandleDailyGoalStatusChange | src/components/dashboard/Overview.tsx:102-114 | the daily collection is updated by id, the other two unchanged, the observer runs, and the invariant (variants, distinct ids, table) is kept |
| Store.GoalStore.HandleWeeklyGoalStatusChange | src/components/dashboard/Overview.tsx:116-128 | the same for the weekly collection |
| Store.GoalStore.HandleMonthlyGoalStatusChange | src/components/dashboard/Overview.tsx:130-142 | the same for the monthly collection |
| Store.GoalStore.HandleStatusChange | src/components/dashboard/Overview.tsx:167-178 | the goal's variant picks its collection; the other two are unchanged |
| Store.GoalStore.HandleCheckboxChange | src/components/dashboard/Overview.tsx:144-165 | the checkbox status (completed, or the remembered status, or in-progress) is applied to the goal's own collection |
| Store.UpdateKeepsIds | src/components/dashboard/Overview.tsx:102-142 | updating one collection keeps the variants and the distinct ids of all three |
| Store.CheckThenUncheck | src/components/dashboard/CalendarView.tsx:156-177 | checking and then unchecking a non-completed goal of any of the three collections through the store restores all three collections |
| Store.UpdateOneIsUpdateAll | src/components/dashboard/Overview.tsx:158-164 | updating only the collection that can hold the id equals updating the concatenation of all three |
| Store.OwnCollectionOnly | src/components/dashboard/Overview.tsx:171-177 | with distinct ids, a goal's id occurs in no collection other than the one its variant selects |
| Store.Collection | src/components/dashboard/Overview.tsx:171-177 | the `"date" in goal` / `"weekNumber" in goal` / `"month" in goal` dispatch: daily goals go to collection 0, weekly to 1, monthly to 2 |
| GoalCardView.GoalCard.constructor | src/components/dashboard/GoalCard.tsx:24-26 | prevStatus starts as the goal's status, or `in-progress` for a completed goal |
| GoalCardView.GoalCard.ReceiveGoal | src/components/dashboard/GoalCard.tsx:29-33 | prevStatus becomes the new status when it changed to a non-completed one, else it is kept; it is never `completed` |
| GoalCardView.GoalCard.HandleCheckboxChange | src/components/dashboard/GoalCard.tsx:54-64 | no handler gives no event; checking emits (id, completed), unchecking emits (id, prevStatus) |
| GoalCardView.GoalCard.HandleStatusChange | src/components/dashboard/GoalCard.tsx:66-69 | the chosen status is forwarded unchanged with the goal's id; with no handler nothing is emitted |
| GoalCardView.CheckThenUncheckCard | src/components/dashboard/GoalCard.tsx:24-64 | check, receive the completed goal back, uncheck: the second event asks for the status the goal had before |
| GoalListView.GoalList.constructor | src/components/dashboard/GoalList.tsx:14-20 | the local copy starts empty, and the empty message defaults to "No goals found." |
| GoalListView.GoalList.SyncFromProps | src/components/dashboard/GoalList.tsx:23-25 | the local copy is replaced by the prop |
| GoalListView.GoalList.HandleStatusChange | src/components/dashboard/GoalList.tsx:27-44 | the local copy is updated by id, and the parent, if any, gets the same (id, status) once |
| GoalListView.GoalList.Rendered | src/components/dashboard/GoalList.tsx:49-60 | the empty message exactly when there is no local goal, otherwise a card for each local goal |
| GoalListView.GoalList.CardAt | src/components/dashboard/GoalList.tsx:51-56 | each card gets its goal and always the list's handler |
| GoalListView.CardEventReachesList | src/components/dashboard/GoalList.tsx:27-56 | a card's event handled by the list sets that goal's status with a consistent completedAt and notifies the parent |
| GoalActions.ParseGoalType | src/server/actions/goals.ts:8 | a string is a goal type exactly when it is `daily`, `weekly` or `monthly` |
| GoalActions.GoalTypeNameRoundTrip | src/server/actions/goals.ts:8 | every goal type's name parses back to it |
| GoalActions.NewRow | src/server/actions/goals.ts:40-63 | the row is `not-started`, copies title, description and type, sets exactly the columns of its type to the input's values, and nulls the rest |
| GoalActions.InputOfRow | src/server/actions/goals.ts:40-63 | a row has an input exactly when its columns fit its type |
| GoalActions.NewRowRoundTrip | src/server/actions/goals.ts:40-63 | the input is recovered from its row |
| GoalActions.RowRoundTrip | src/server/actions/goals.ts:40-63 | every well-shaped `not-started` row is the row of its recovered input |
| GoalActions.StatusPatchOf | src/server/actions/goals.ts:80-85 | the patch sets the status and `completedAt` to now iff completed, null otherwise |
| GoalActions.ApplyPatch | src/server/actions/goals.ts:78-87 | the `.set(...)` update keeps the id, createdAt and every other column, and a consistent patch leaves a row with completedAt iff completed |
| GoalActions.PatchedRowConsistent | src/server/actions/goals.ts:78-87 | a patched row has completedAt iff completed, and keeps id, createdAt and every other column |
| GoalActions.First | src/server/actions/goals.ts:67 | `goal[0]` is the first row, undefined exactly when there is none |
| GoalActions.ResultOf | src/server/actions/goals.ts:37-73 | a thrown error gives failure with the fixed message, returned rows give success with the first row |
| GoalActions.CreateGoal | src/server/actions/goals.ts:36-74 | fails with "Failed to create goal" exactly when the insert of the built row throws; otherwise the data is the first returned row |
| GoalActions.UpdateGoalStatus | src/server/actions/goals.ts:76-97 | fails with "Failed to update goal status" exactly when the update throws; otherwise the data is the first returned row |
| GoalActions.DeleteGoal | src/server/actions/goals.ts:99-110 | fails with "Failed to delete goal" exactly when the delete throws; success carries no data |
| GoalActions.UpdatedRows | src/server/actions/goals.ts:78-87 | the returned rows are exactly the table's rows with the id, patched |
| GoalActions.UpdateOnTable | src/server/actions/goals.ts:76-97 | over distinct ids the update returns the one patched row, or none when the id is missing |
| GoalActions.MissingIdIsSuccess | src/server/actions/goals.ts:86-90 | a missing id is reported as success with undefined data |
| AddGoalForm.MonthOptions | src/components/goals/AddGoalForm.tsx:165-166 | twelve options, exactly the 1-based months 1..12 |
| AddGoalForm.BuildInput | src/components/goals/AddGoalForm.tsx:23-55 | the input's type is the form's type; title and description are copied; a daily date is the parsed date or now; weekly carries the ISO week number and calendar year of weekStart; monthly carries month and year as given |
| AddGoalForm.GoalForm.constructor | src/components/goals/AddGoalForm.tsx:10-18 | empty texts, today's date, and today's 1-based month and year |
| AddGoalForm.GoalForm.HandleSubmit | src/components/goals/AddGoalForm.tsx:20-63 | the built input goes to createGoal; title and description are cleared and onSuccess called only on success; on failure nothing changes |
| AddGoalForm.GoalForm.WeekRangeShown | src/components/goals/AddGoalForm.tsx:66-67 | a range is shown exactly for the weekly type |
| AddGoalForm.WeekRangeShownMatchesInput | src/components/goals/AddGoalForm.tsx:38-67 | the shown range holds the chosen date, and each of its days has the week number the weekly input carries |
| AddGoalForm.DescriptionNeverNull | src/components/goals/AddGoalForm.tsx:23-27 | the inserted description is never null, even when empty |
| AddGoalForm.ChosenMonthNotShown | src/components/goals/AddGoalForm.tsx:47-54 | a monthly goal with the 1-based month the user chose is never in that month's 0-based bucket |
| AddGoalForm.DecemberNeverShown | src/components/goals/AddGoalForm.tsx:165-166 | a monthly goal for option 12 is in no month's bucket |
| AddGoalForm.DefaultMonthMissesCurrentMonth | src/components/goals/AddGoalForm.tsx:17 | with the default month, a monthly goal is never in the current month's bucket |
| AddGoalForm.WeekYearIsCalendarYear | src/components/goals/AddGoalForm.tsx:39-45 | Monday 2024-12-30 is sent as week 1 of 2024, although its ISO week-based year is 2025 |
| MockData.MutableDate.constructor | src/data/mockData.ts:11 | a copy holds the given time |
| MockData.MutableDate.SetDate | src/data/mockData.ts:12 | the object moves n − getDate() days, rolling over month ends, keeps its time of day, and returns the new time |
| MockData.MutableDate.SetHours | src/data/mockData.ts:13 | the object moves to the given time of the same day and returns the new time |
| MockData.GetCurrentWeekDates | src/data/mockData.ts:4-20 | start is the Monday of now's week at 00:00:00.000, end is six days later at 23:59:59.999, and now lies between them |
| MockData.StartOfWeek | src/data/mockData.ts:11-13 | the start is midnight of the Monday of now's week |
| MockData.EndOfWeek | src/data/mockData.ts:15-17 | the end is six days after the start at 23:59:59.999 |
| MockData.MondayAtMidnight | src/data/mockData.ts:11-13 | the two setter calls on the start land on the Monday at midnight |
| MockData.SundayAtLastMs | src/data/mockData.ts:15-17 | the two setter calls on the end land on the Sunday at 23:59:59.999 |
| MockData.DaysBack | src/data/mockData.ts:11-12 | going back k whole days lowers the day number by k and keeps the time of day |
| MockData.CurrentWeekBounds | src/data/mockData.ts:4-20 | the start is a Monday at midnight and the end is six days later at the last millisecond |
| MockData.CurrentWeekIsWeekRange | src/data/mockData.ts:4-20 | the current week's start is getWeekRange's start, and its end is getWeekRange's end plus 23:59:59.999 |
| MockData.Jan1 | src/data/mockData.ts:24 | January 1 of the date's year, not after the date |
| MockData.SundayWeekNumber | src/data/mockData.ts:23-27 | the whole-day Sunday-start week number lies in 1..54 |
| MockData.SundayWeekNumberAsWritten | src/data/mockData.ts:23-27 | the formula as written, in exact milliseconds: the result lies in 1..54 (see AsWrittenAfterMidnight for where it departs from the whole-day count) |
| MockData.SundayOffset | src/data/mockData.ts:26 | days since January 1 plus January 1's weekday is the date's weekday, modulo 7 |
| MockData.SaturdayEndsWeek | src/data/mockData.ts:25-26 | the whole-day count is a multiple of 7 exactly on Saturdays |
| MockData.CeilWithFraction | src/data/mockData.ts:25-26 | ceil((n days + a fraction) / 7 days) is n / 7 + 1 |
| MockData.CeilWithFractionCases | src/data/mockData.ts:25-26 | a fraction of a day raises the ceiling by one exactly when 7 divides n |
| MockData.AsWrittenParts | src/data/mockData.ts:25-26 | the formula as written splits into whole days and the time of day |
| MockData.AsWrittenAtMidnight | src/data/mockData.ts:23-27 | at midnight the formula as written is the whole-day count |
| MockData.AsWrittenAfterMidnight | src/data/mockData.ts:23-27 | after midnight the formula as written is one too high on Saturdays and right on every other day |
| MockData.SaturdayMorningCounterexample | src/data/mockData.ts:23-27 | Saturday 2024-01-06 at 10:00 is counted as week 2 by the formula as written, week 1 by whole days |
| MockData.SundayWeekConstant | src/data/mockData.ts:23-27 | the whole-day count keeps one value from a Sunday to the next Saturday of a year, at any time of day |
| MockData.SundayWeekIsNotIso | src/data/mockData.ts:23-27 | Sunday 2024-01-07 is week 2 of the Sunday-start count and ISO 8601 week 1 |
| MockData.SundayCountOfJan7 | src/data/mockData.ts:23-27 | the Sunday-start count of 2024-01-07 is 2 |
| MockData.IsoWeekOfJan7 | src/lib/date-utils.ts:1-8 | getWeekNumber of 2024-01-07 is 1 |
| MockData.FixtureIdsDistinct | src/data/mockData.ts:36-147 | the fixture ids d1–d4, w1–w3, m1–m4 are distinct |
| MockData.DailyFixtures | src/data/mockData.ts:36-70 | four daily goals, only d1 completed (at 08:30 today), all dated by the shared `today` left at midnight |
| MockData.WeeklyFixtures | src/data/mockData.ts:73-107 | three weekly goals for the given span, week and year, none completed |
| MockData.MonthlyFixtures | src/data/mockData.ts:110-147 | four monthly goals for the 0-based month, created on its first day, none completed |
| MockData.BuildFixtures | src/data/mockData.ts:29-147 | distinct ids; completedAt iff completed; only d1 completed; today's midnight, the current week, the 0-based current month and year; every fixture in its bucket for now |
| MockData.FixturesCombined | src/data/mockData.ts:36-147 | the combined fixtures have the listed distinct ids and consistent completedAt |
| MockData.FixturesInBuckets | src/data/mockData.ts:29-33 | fixtures dated today, spanning now and in the current month are all in their buckets for now |
| OverviewScreen.MondayShift | src/components/dashboard/Overview.tsx:58-61 | the first setDate lands on the Monday of the week, at today's time of day |
| OverviewScreen.DaysOn | src/components/dashboard/Overview.tsx:65-66 | `setDate(getDate() + i)` on a copy moves exactly i days on and keeps the time of day |
| OverviewScreen.GetDaysOfWeek | src/components/dashboard/Overview.tsx:52-71 | seven consecutive days from the Monday of today's week to the Sunday, each at today's time of day (with WeekRangeDays, the Monday getWeekRange starts on) |
| OverviewScreen.SundayAfter | src/components/dashboard/Overview.tsx:64-68 | six days after a Monday is a Sunday |
| OverviewScreen.Overview.constructor | src/components/dashboard/Overview.tsx:23-73 | the store holds the fixtures with the invariant, the week days are this week's, and all daily fixtures are in today's bucket |
| OverviewScreen.Overview.GoalsForDate | src/components/dashboard/Overview.tsx:76-82 | exactly the daily goals on the date's calendar day, in their order |
| CalendarScreen.Sections | src/components/dashboard/CalendarView.tsx:300-354 | the rendered sections list exactly the view mode's goals; the empty notes appear exactly for empty buckets; no listed section is empty |
| CalendarScreen.ParseViewMode | src/components/dashboard/CalendarView.tsx:258-269 | a select value is a view mode exactly when it is `day`, `week` or `month`, and each value selects the mode named by it |
| CalendarScreen.ViewModeNameRoundTrip | src/components/dashboard/CalendarView.tsx:30 | every view mode's value parses back to that mode |
| CalendarScreen.CalendarView.constructor | src/components/dashboard/CalendarView.tsx:33-45 | today selected, the day view, and the fixtures in the store |
| CalendarScreen.CalendarView.HandleDateSelect | src/components/dashboard/CalendarView.tsx:108-112 | a picked date replaces the selection; no date leaves it unchanged |
| CalendarScreen.CalendarView.SetViewMode | src/components/dashboard/CalendarView.tsx:260-262 | the select's value becomes the view mode |
| CalendarScreen.CalendarView.Selected | src/components/dashboard/CalendarView.tsx:87-88 | the selected date's buckets hold exactly the store's goals on the day, active on the date and in its month |
| CalendarScreen.CalendarView.Shown | src/components/dashboard/CalendarView.tsx:290-357 | the card lists exactly the view mode's buckets for the selected date |

## Left out

- Rendering: JSX, styling, icons, `renderStatusIcon`, `statusColors` and `renderGoalItem`. The card titles that use `formatDate` (not part of this model) and `toLocaleString` are left out as UI. When the model names a section, only the heading text is kept.
- The Drizzle `insert`, `update` and `delete` calls are the database parameter. `revalidatePath` and `console.error` are left out as I/O.
- `src/server/db/schema.ts`, `Dashboard.tsx`, `AddGoalDialog.tsx` and `AddGoalButton.tsx` hold tab, dialog and table wiring with no logic; they are not part of this model.
- Time zones and daylight saving time are left out. One fixed local calendar is used, so `new Date("YYYY-MM-DD")`, which is UTC midnight, and `toISOString().split("T")[0]`, a UTC date, are read in that same calendar.
- The wire formats are left out: the ISO string `createGoal` stores for a daily date is kept as a timestamp, and the rows' database-generated ids and timestamps are opaque values of `GoalRow`.
- An empty week field (an invalid `Date`) is left out: the form always holds a calendar date there. An empty daily date field is modelled (it falls back to now).
- The form's `onChange` setters (including `parseInt` of the month) are left out as plain field assignments. The fields are public variables of `GoalForm`.
- React scheduling and batching are left out: the observer effects run synchronously at the end of each handler, and `GoalList`'s prop sync is a separate method call. Because of this, the stale-closure reading of `prevStatuses` is not modelled.
- Store.GoalStore: the overview and the calendar tab each keep their own copy of this state. The model has the class once, and each screen holds its own instance.
- MockData.DailyFixtures: every daily goal's `date` is the one shared `today` object. The model stores the timestamp that object holds at the end, so later mutation through the alias is not captured.
- MockData.BuildFixtures: the weekly fixtures' week number uses the corrected whole-day count `SundayWeekNumber`, not the formula as written. The two differ only on Saturdays after midnight (see Findings).
- MockData.SundayWeekNumberAsWritten: the division is exact here. JavaScript's floating-point division and its rounding before `Math.ceil` are left out.
- GoalListView.GoalList.CardAt: each call builds a fresh `GoalCard`, so it models a card's first render only. React keeps a keyed card, and its `prevStatus`, across the list's re-renders; that persistence is modelled by calling the card's own methods (see GoalCardView.CheckThenUncheckCard), not through the list.
- `new Date()` is the parameter `now`. The separate `new Date()` calls in `getCurrentWeekDates`, the module top level and the form's initial state are taken to read the same instant.
- The `TimeFrame` type is modelled as a datatype only. No code in this model uses it.

## Findings

| source | as written | input that shows it | evidently intended | confidence | as-written member | corrected member |
|---|---|---|---|---|---|---|
| src/data/mockData.ts:23-27 | `pastDaysOfYear` keeps the fraction of the current day, so after midnight a Saturday's count `(days + weekday(Jan 1) + 1)` is a multiple of 7 plus a fraction, and the ceiling rounds it up to the next week | Saturday 2024-01-06 at 10:00: the formula gives week 2, while the Sunday-start week holding January 1–6 is week 1 (at midnight the same day gives 1) | a Sunday-start week number counted in whole days, constant from each Sunday to the next Saturday | not executed | MockData.SaturdayMorningCounterexample | MockData.SundayWeekNumber |
