# Time tracker core, in Dafny

This project models the core of an Obsidian time-tracking plugin:

- **Records** (`types.dfy`, module `TimeTypes`): projects, sessions, the stored document and the live timer state, plus the defaults the plugin ships with.
- **Store** (`store.dfy`, module `SessionStore`): the projects and sessions the plugin keeps in memory, covering
  - the first-match project lookup and patch;
  - appending projects and sessions;
  - updating and deleting a session by index, with a bounds check;
  - deleting a project, which also deletes its sessions;
  - the start-anchored range filter;
  - the unclamped duration sum.
- **Timer** (`timer.dfy`, module `TimerMachine`): a two-state machine (idle, running) with `start`, `stop`, `discard` and `elapsed`. Stopping a running timer finalises one session into the store.
- **Helpers** (`utils.dfy`, module `Utils`): duration and clock formatting, grouping sessions by project, and how much of a session overlaps a range. Decimal rendering and zero padding are in `text.dfy`, module `TextFormat`.
- **Add/edit-time dialog** (`add_time.dfy`, module `AddTime`): its initial values, the duration it shows, and what submitting writes to the store.
- **Analytics section** (`analytics.dfy`, module `Analytics`): the week and month periods, the per-day chart columns, the per-project breakdowns sorted by time, the project summary and the divisor of the daily average.

## Modelling choices

- **Time.** Timestamps are integer milliseconds. The local time zone is taken to be UTC, so a local day is the day number `ms / 86400000`.
- **The wall clock.** It becomes a `now` parameter. In the analytics it becomes a `Today` record: today's day number (days since 1 January 1970), its `getDay()` weekday (Sunday = 0), its day of the month and the month's length. `Analytics.ValidToday` ties the weekday to the day number (day 0 was a Thursday); the day of the month and the month's length are given, within 1..length and 28..31.
- **Integer operators.** JavaScript's truncating `%` is written out as `Utils.JsRem`, so the formatters are modelled on negative inputs too. `Math.floor` by a positive divisor is Dafny's `/`.
- **Where state changes in place.**
  - `Store`, `Timer` and `AddTimeModal` are classes whose methods update their fields.
  - The store's save is counted in a ghost field `saves`.
  - The timer's `persistState` calls and `'change'` events are recorded in a ghost log `effects`.
- **The timer's specification.** Each timer operation is specified by a pure step function (`StopStep`, `StartStep`, `DiscardStep`). That function gives the new state, the sessions handed to the store and the effects fired, in order. `Run` chains these steps over any sequence of calls.
- **`groupByProject`** becomes a method with a loop. Its result records the key order and the list under each key. The key order is first-seen order, which is what `Object.entries` gives for the ids the plugin creates (see "Left out" for the ids where it differs).
- **Clamped totals.** The analytics code calls a `getTotalTimeInRange` that the store does not define. The model takes it to be the sum of `clampedDuration` over the list (`Utils.ClampedTotal`). That is an assumption, based on the name and on how the result is used.
- **`getMonthSessions`** is not defined either. The month's sessions are taken to be those that start in the month's range.
- **Sorting.** `.sort((a, b) => b.time - a.time)` is modelled as an insertion sort on descending time (`Analytics.SortByTime`).
- **The store's week.** The analytics period starts its week on Monday (src/ui/analytics-section.ts:140-146). The store's `getWeekSessions` starts it on Sunday (`getDate() - getDay()`, src/store.ts:112). The model keeps both as written, and the finding below shows what that does to the week view.

## Model

| member | source | states |
|---|---|---|
| TimeTypes.DefaultSettingsIdle | src/types.ts:29-31 | the default timer state is idle with no project and no start time, and is consistent |
| TimeTypes.DefaultProjectsDistinct | src/types.ts:33-36 | exactly two default projects, "work" and "personal", with distinct ids |
| TimeTypes.DefaultIconsAvailable | src/types.ts:33-44 | every default project's icon is one of the available icons |
| TimeTypes.StatusIsIdleOrRunning | src/types.ts:19-23 | a status is exactly one of idle and running |
| TextFormat.NatToString | src/utils.ts:8 | `toString()` of a non-negative number is a non-empty digit string with no leading zero |
| TextFormat.ParseNatToString | src/utils.ts:8 | the decimal text of a number reads back as that number |
| TextFormat.NatToStringLength | src/utils.ts:8 | one digit below 10, two below 100, four from 1000 to 9999 |
| TextFormat.PadStart | src/utils.ts:8 | `padStart` keeps the text as its suffix, fills in front up to the width and never shortens |
| TextFormat.ParseNatLeadingZeros | src/utils.ts:8 | zero padding in front does not change the value read back |
| TextFormat.Pad2RoundTrip | src/utils.ts:20 | two-digit zero padding reads back as the number, and is exactly two characters below 100 |
| Utils.FormatHMSSplit | src/utils.ts:3-7 | for ms >= 0, h*3600 + m*60 + s equals the whole seconds, with m and s in 0..59 |
| Utils.FormatHMSRoundTrip | src/utils.ts:3-9 | the text is "hh:mm:ss": hour field of at least two digits, two-digit minutes and seconds, reading back as the whole seconds of the duration |
| Utils.FormatHMRounds | src/utils.ts:11-14 | for ms >= 0, the minutes are ms rounded to the nearest minute with halves up, split into hours and minutes 0..59 |
| Utils.FormatHMUnderHalfMinute | src/utils.ts:11-17 | anything under 30000 ms shows as "0m" |
| Utils.FormatHMS | src/utils.ts:3-9 | the three zero-padded fields of the floored seconds, with JavaScript's truncating `%`; its contract is in FormatHMSSplit and FormatHMSRoundTrip |
| Utils.FormatHM | src/utils.ts:11-17 | the rounded minutes split into "{h}h {m}m" or "{m}m"; its contract is in FormatHMRounds, FormatHMRoundTrip, FormatHMOnlyReading and FormatHMUnderHalfMinute |
| Utils.FormatHMRoundTrip | src/utils.ts:11-17 | the text reads back, under a reader that accepts only "{h}h {m}m" with h >= 1 or "{m}m", canonical fields and minutes below 60, as the hour and minute fields; it has an hour field exactly when the rounded minutes are 60 or more |
| Utils.ParseHMText | src/utils.ts:15-16 | a text that reads as (h, m) is exactly "{h}h {m}m" when h > 0 and "{m}m" otherwise, with both numbers printed by `toString()` |
| Utils.FormatHMOnlyReading | src/utils.ts:11-17 | formatHM's text is the only text that reads back as its hour and minute fields |
| Utils.CanonicalIsNatToString | src/utils.ts:15-16 | a digit field with no leading zero is exactly the `toString()` of its value |
| Utils.LeadingNonZero | src/utils.ts:15-16 | a digit field whose first digit is not zero has a value of at least 1 |
| Utils.FormatHHMM | src/utils.ts:19-21 | two zero-padded fields around a colon; its contract is in FormatHHMMRoundTrip |
| Utils.FormatHHMMRoundTrip | src/utils.ts:19-21 | "HH:MM": five characters, a colon in the middle, and both two-digit fields read back as the hour and minute |
| Utils.ProjectOrderKeys | src/utils.ts:23-29 | the keys are distinct and are exactly the projects that occur among the sessions |
| Utils.SessionsOfMembers | src/utils.ts:23-29 | a group holds exactly the sessions of its project |
| Utils.GroupByProject | src/utils.ts:23-29 | the loop yields the first-seen key order, one entry per key, and under each key that project's sessions in input order |
| Utils.GroupingStep | src/utils.ts:25-27 | one iteration either opens a new group at the end of the key order or appends to the session's own group, and keeps the grouping of the prefix |
| Utils.SnocStep | src/utils.ts:25-27 | one more session changes only its own project's group and adds its key only when new |
| Utils.SessionsOfSnoc | src/utils.ts:26 | one more session joins the end of its own project's group and no other |
| Utils.GroupsNonEmpty | src/utils.ts:23-29 | no group is empty |
| Utils.SessionsOfAppend | src/utils.ts:23-29 | grouping keeps input order: the group of a concatenation is the concatenation of the groups |
| Utils.GroupSizesSnoc | src/utils.ts:23-29 | appending a key adds its group's size to the total |
| Utils.GroupSizesStep | src/utils.ts:23-29 | one more session adds one to the group sizes exactly when its project is listed |
| Utils.GroupSizesCoverInput | src/utils.ts:23-29 | the group sizes add up to the number of sessions, so each session is in exactly one group |
| Utils.ClampedDuration | src/utils.ts:31-35 | the overlap is >= 0; at most the range length and the session length; 0 when disjoint; the full length when the session lies inside the range |
| Utils.ClampedDurationSplit | src/utils.ts:31-35 | the overlap is additive over adjacent ranges a <= b <= c |
| Utils.ClampedTotal | src/ui/analytics-section.ts:29 | a clamped total is never negative |
| Utils.ClampedTotalSplit | src/ui/analytics-section.ts:29 | the clamped total over [a, c) is the total over [a, b) plus the total over [b, c) |
| Utils.ClampedTotalAppend | src/ui/analytics-section.ts:29 | the clamped total of a concatenation is the sum of the totals |
| Utils.ClampedTotalCountsMember | src/ui/analytics-section.ts:29 | no session contributes more than the total |
| Utils.ClampedTotalDayBound | src/ui/analytics-section.ts:167 | over one day, the total is at most one day per session |
| SessionStore.FirstProjectIndex | src/store.ts:40-42 | the index found holds a project with that id |
| SessionStore.FirstProjectIndexFirst | src/store.ts:40-42 | the index is the first with that id, and none is found only when no project has it |
| SessionStore.FindProject | src/store.ts:40-42 | a project found has the id asked for |
| SessionStore.FindProjectFacts | src/store.ts:40-42 | nothing is found exactly when no project has the id; otherwise the first project that has it is |
| SessionStore.SessionsInRange | src/store.ts:88-93 | empty when the range is empty, and never longer than the input |
| SessionStore.SessionsInRangeMembers | src/store.ts:88-93 | exactly the sessions with start in [rangeStart, rangeEnd) are kept, whatever their end |
| SessionStore.SessionsInRangeAppend | src/store.ts:88-93 | the filter keeps stored order |
| SessionStore.TotalTime | src/store.ts:95-99 | the total of no sessions is 0 |
| SessionStore.TotalTimeAppend | src/store.ts:95-99 | the unclamped total is additive over concatenation |
| SessionStore.ClampedTotalAtMostTotal | src/store.ts:95-99 | for sessions that do not run backwards, clamping never adds time and leaves the total of contained sessions unchanged |
| SessionStore.ProjectsWithout | src/store.ts:58 | the filter never lengthens the list |
| SessionStore.ProjectsWithoutMembers | src/store.ts:58 | exactly the projects with another id are kept |
| SessionStore.ProjectsWithoutAppend | src/store.ts:58 | the kept projects stay in relative order |
| SessionStore.SessionsWithout | src/store.ts:59 | the cascade never lengthens the list |
| SessionStore.SessionsWithoutMembers | src/store.ts:59 | exactly the sessions of other projects are kept |
| SessionStore.SessionsWithoutAppend | src/store.ts:59 | the kept sessions stay in relative order |
| SessionStore.TodaySessions | src/store.ts:101-107 | getTodaySessions: the sessions starting between today's midnight and the next; its contract is in StoreQueriesSelect |
| SessionStore.WeekSessions | src/store.ts:109-117 | getWeekSessions: the sessions starting in the seven days from the Sunday `getDay()` days back; its contract is in StoreQueriesSelect |
| SessionStore.Store.GetProject | src/store.ts:40-42 | getProject on the stored projects; its contract is in FindProjectFacts |
| SessionStore.Store.GetSessionsInRange | src/store.ts:88-93 | getSessionsInRange on the stored sessions; its contract is in SessionsInRangeMembers and SessionsInRangeAppend |
| SessionStore.Store.GetTodaySessions | src/store.ts:101-107 | getTodaySessions on the stored sessions; its contract is in StoreQueriesSelect |
| SessionStore.Store.GetWeekSessions | src/store.ts:109-117 | getWeekSessions on the stored sessions; its contract is in StoreQueriesSelect and SundayDropsWeek |
| SessionStore.StoreQueriesSelect | src/store.ts:101-117 | today's query keeps exactly the sessions starting today; the week query keeps exactly those starting in the seven days from the Sunday `getDay()` days back |
| SessionStore.Store.constructor | src/store.ts:8 | the store starts with no projects, no sessions and no saves |
| SessionStore.Store.Load | src/store.ts:18-26 | a stored document is taken as it is; with none, the default projects are seeded and saved once |
| SessionStore.Store.AddProject | src/store.ts:44-47 | the project is appended at the end, sessions unchanged, one save |
| SessionStore.Store.UpdateProject | src/store.ts:49-55 | only the first project with that id is patched, and saved once; with no match nothing changes and nothing is saved |
| SessionStore.Store.DeleteProject | src/store.ts:57-61 | every project with that id and every session of it are removed, the rest kept in order; no remaining session names it; one save |
| SessionStore.Store.AddSession | src/store.ts:68-71 | the session is appended at the end, projects unchanged, one save |
| SessionStore.Store.UpdateSession | src/store.ts:73-78 | an in-range index replaces exactly that position and saves; an out-of-range index changes nothing and does not save |
| SessionStore.Store.DeleteSession | src/store.ts:80-85 | an in-range index removes exactly that session and saves; an out-of-range index changes nothing and does not save |
| SessionStore.DeleteSessionShifts | src/store.ts:80-85 | after a delete, the sessions before the index stay put and those after it move down one, and the length drops by one |
| TimerMachine.StopStep | src/timer.ts:50-63 | stop as a transition: the session it finalises, the state it leaves and its persist/change effects; its contract is in StopRecordsElapsed, StopWhenIdleIsNoOp, StopWithEmptyProjectIsNoOp and StepKeepsConsistent |
| TimerMachine.StartStep | src/timer.ts:37-48 | start as a transition (inner stop, then run from now); its contract is in StartWhenIdle, StartWhileRunningSwitches and StartThenStop |
| TimerMachine.DiscardStep | src/timer.ts:65-69 | discard as a transition; its contract is in DiscardAppendsNothing |
| TimerMachine.ElapsedAt | src/timer.ts:32-35 | the elapsed getter at a given clock reading; its contract is in ElapsedAfterStart and StopRecordsElapsed |
| TimerMachine.Run | src/timer.ts:37-69 | a sequence of operations one after the other; its contract is in RunKeepsConsistent, RunPersistsThenNotifies and RunSessionsForward |
| TimerMachine.StepKeepsConsistent | src/timer.ts:37-69 | start and discard always leave a consistent state (running exactly when a project and a start are set); stop keeps one |
| TimerMachine.RunKeepsConsistent | src/timer.ts:37-69 | from a consistent state, any sequence of start/stop/discard leaves a consistent state |
| TimerMachine.StartThenStop | src/timer.ts:37-63 | start(p) at t1 then stop at t2 appends exactly {p, t1, t2} after whatever start finalised, and ends idle |
| TimerMachine.StopWithEmptyProjectIsNoOp | src/timer.ts:50-53 | with the empty project id, which is falsy, stop does nothing and the timer keeps running |
| TimerMachine.StopWhenIdleIsNoOp | src/timer.ts:50-53 | stop when idle appends, persists and fires nothing |
| TimerMachine.StartWhileRunningSwitches | src/timer.ts:37-48 | start while running, even for the same project, finalises one session for the old project, then runs for the new one from now; persist and change come twice, in that order |
| TimerMachine.StartWhenIdle | src/timer.ts:37-48 | start from idle appends nothing, runs from now, persists, then fires change |
| TimerMachine.DiscardAppendsNothing | src/timer.ts:65-69 | discard ends idle with no session, and persists and fires change even when already idle |
| TimerMachine.StopRecordsElapsed | src/timer.ts:32-63 | the session stop finalises lasts exactly what elapsed reported at that moment |
| TimerMachine.ElapsedAfterStart | src/timer.ts:32-48 | after start, elapsed is now minus the start; idle gives 0 |
| TimerMachine.PersistThenChangeAppend | src/timer.ts:46-47 | persist-then-change pairs concatenate |
| TimerMachine.StepPersistsThenNotifies | src/timer.ts:37-69 | every operation fires persist then change, in pairs, and the last state persisted is the state it leaves |
| TimerMachine.RunPersistsThenNotifies | src/timer.ts:37-69 | over any sequence of operations, every persist is immediately followed by change |
| TimerMachine.RunSessionsForward | src/timer.ts:50-63 | with a clock that never goes back, every finalised session ends at or after its start |
| TimerMachine.Timer.constructor | src/timer.ts:6-14 | the timer starts idle with no project and no start time |
| TimerMachine.Timer.Load | src/timer.ts:16-18 | the loaded state is taken as it is, unchecked |
| TimerMachine.Timer.Stop | src/timer.ts:50-63 | the new state, the sessions appended to the store, the saves and the effects are those of the stop step |
| TimerMachine.Timer.Start | src/timer.ts:37-48 | the new state, the sessions appended to the store (via the inner stop), the saves and the effects are those of the start step |
| TimerMachine.Timer.Discard | src/timer.ts:65-69 | the new state and the effects are those of the discard step; the store is not touched |
| TimerMachine.Timer.NotifyChange | src/ui/add-time-modal.ts:124 | an outside trigger adds one change event |
| AddTime.IsEditing | src/ui/add-time-modal.ts:25-27 | the dialog edits exactly when both a session and its index were given; its contract is in AddTimeModal.Submit |
| AddTime.DefaultProjectId | src/ui/add-time-modal.ts:45 | the asked project, else the first project's id, else ""; its contract is in AddTimeModal.constructor |
| AddTime.DefaultTimes | src/ui/add-time-modal.ts:47-50 | the default start and end hours for a new entry; its contract is in DefaultTimesBounds |
| AddTime.ComputeDurationMs | src/ui/add-time-modal.ts:101-106 | the duration with the overnight wrap; its contract is in DurationWithinADay |
| AddTime.SubmitInterval | src/ui/add-time-modal.ts:108-111 | the start and end stored on submit; its contract is in SubmitMatchesDisplayed and EditRoundTrip |
| AddTime.ToDateStr | src/ui/add-time-modal.ts:128-130 | the date field's text; its contract is in ToDateStrRoundTrip |
| AddTime.ToTimeStr | src/ui/add-time-modal.ts:132-134 | the time field's text; its contract is in ToTimeStrRoundTrip |
| AddTime.AddTimeModal.IsEditingNow | src/ui/add-time-modal.ts:25-27 | isEditing on the dialog's options; its contract is in AddTimeModal.Submit |
| AddTime.AddTimeModal.DurationMs | src/ui/add-time-modal.ts:101-106 | the dialog's displayed duration; its contract is in DurationWithinADay and SubmitMatchesDisplayed |
| AddTime.TimeOf | src/ui/add-time-modal.ts:132-134 | the hours and minutes of an instant are a valid time of day |
| AddTime.DurationWithinADay | src/ui/add-time-modal.ts:101-106 | an end not after the start moves forward exactly one day, so the duration is in (0, 86400000]; equal times give exactly one day |
| AddTime.SubmitMatchesDisplayed | src/ui/add-time-modal.ts:101-117 | the stored session starts at the chosen start and lasts exactly the duration the dialog shows |
| AddTime.DefaultTimesBounds | src/ui/add-time-modal.ts:47-50 | default hours satisfy 0 <= start <= end <= 23; one hour apart (a full day at hour 0, where start equals end) |
| AddTime.InstantSplit | src/ui/add-time-modal.ts:37-42 | an instant is its day plus its hours and minutes plus the dropped seconds |
| AddTime.EditRoundTrip | src/ui/add-time-modal.ts:35-117 | opening a session on whole minutes that lasts (0, 1 day] and saving it unchanged stores the same interval |
| AddTime.ToDateStrRoundTrip | src/ui/add-time-modal.ts:128-130 | "YYYY-MM-DD" with a 1-based, zero-padded month and a zero-padded day, whose fields read back |
| AddTime.ToTimeStrRoundTrip | src/ui/add-time-modal.ts:132-134 | the zero-padded "HH:MM" reads back as the time shown |
| AddTime.AddTimeModal.constructor | src/ui/add-time-modal.ts:29-52 | editing shows the session's project, date and times; a new entry gets the asked project, else the first, else "", and the hour up to now |
| AddTime.AddTimeModal.Submit | src/ui/add-time-modal.ts:108-126 | the session is built by the wrap rule; editing replaces the index (no-op out of range) and otherwise appends, never both; change fires once |
| Analytics.MondayIndex | src/ui/analytics-section.ts:140 | the days back to this week's Monday; its contract is in MondayIndexMaps |
| Analytics.PeriodRange | src/ui/analytics-section.ts:137-151 | the displayed period's start and end; its contract is in PeriodRangeFacts |
| Analytics.DaysInPeriod | src/ui/analytics-section.ts:81-84 | the average's divisor; its contract is in DaysInPeriodBounds |
| Analytics.SessionsAsWritten | src/ui/analytics-section.ts:133-135 | getSessions as written; its contract is in StoreWeekStartsOnSunday, SundayDropsWeek and SundayWeekTotalCounterexample |
| Analytics.SortByTime | src/ui/analytics-section.ts:198 | the sort by descending time; its contract is in SortByTimeFacts |
| Analytics.ColorOf | src/ui/analytics-section.ts:195 | a segment's colour; its contract is in ColorOfFacts |
| Analytics.ProjectBreakdown | src/ui/analytics-section.ts:191-199 | a column's segments; its contract is in BreakdownFacts and SegmentsOfProjects |
| Analytics.ProjectSummary | src/ui/analytics-section.ts:103-113 | the summary rows; its contract is in SummaryFacts |
| Analytics.DayRow | src/ui/analytics-section.ts:160-169 | one day's column; its contract is in DayRowFacts |
| Analytics.MondayIndexMaps | src/ui/analytics-section.ts:140 | (getDay() + 6) % 7 maps Monday to 0 and Sunday to 6 and lies in 0..6 |
| Analytics.PeriodRangeFacts | src/ui/analytics-section.ts:137-151 | the week runs seven days from this week's Monday midnight; the month from its day 1 to the next month's day 1; both contain today |
| Analytics.DaysInPeriodBounds | src/ui/analytics-section.ts:81-84 | the average's divisor is between 1 and the period's length and counts the days from the period's start to today |
| Analytics.StoreWeekStartsOnSunday | src/store.ts:109-117 | the store's week starts on a Sunday, never on the period's Monday |
| Analytics.InsertPermutes | src/ui/analytics-section.ts:198 | insertion adds exactly the one element |
| Analytics.InsertSumKeys | src/ui/analytics-section.ts:198 | insertion adds the element's time to the total |
| Analytics.InsertBelow | src/ui/analytics-section.ts:198 | insertion keeps every time under a bound both sides respect |
| Analytics.InsertSorted | src/ui/analytics-section.ts:198 | insertion keeps the list in non-increasing time |
| Analytics.SumKeysSnoc | src/ui/analytics-section.ts:198 | appending adds the element's time to the total |
| Analytics.SortByTimeFacts | src/ui/analytics-section.ts:198 | the sorted list is non-increasing in time and a permutation of the input, with the same length and the same total |
| Analytics.ColorOfFacts | src/ui/analytics-section.ts:195 | an unknown project is drawn '#888'; a known one in the colour of the first project with its id |
| Analytics.ProjectTimesOfMembers | src/ui/analytics-section.ts:192-196 | one entry per key, in key order, carrying that project's clamped total |
| Analytics.ToSegmentsMembers | src/ui/analytics-section.ts:192-196 | each entry becomes a segment of its project's colour and the same time; the times keep their total |
| Analytics.ProjectTimesSnoc | src/ui/analytics-section.ts:192-196 | one more key adds its project's total |
| Analytics.ProjectTimesStep | src/ui/analytics-section.ts:192-196 | one more session adds its clamped duration to its own project's total only |
| Analytics.GroupTotalSnoc | src/ui/analytics-section.ts:192-196 | one more session adds its clamped duration to its project's group total only |
| Analytics.ProjectTimesCoverInput | src/ui/analytics-section.ts:191-199 | the per-project totals add up to the clamped total of all the sessions |
| Analytics.SegmentsOfProjects | src/ui/analytics-section.ts:191-199 | before sorting, segment i is the colour and clamped total of the i-th distinct project in first-seen order, so there is exactly one segment per project present |
| Analytics.BreakdownFacts | src/ui/analytics-section.ts:191-199 | the breakdown is a permutation of the per-project segments (one per distinct project, with its colour, '#888' when unknown, and clamped total), sorted by non-increasing time, with times adding up to the column's total |
| Analytics.SummaryFacts | src/ui/analytics-section.ts:103-113 | "No data" exactly when there are no sessions; otherwise one row per project, in non-increasing total, adding up to the period total |
| Analytics.DayRowFacts | src/ui/analytics-section.ts:160-169 | a column's total is >= 0, is the sum of its segments, and is at most one day per session started that day |
| Analytics.Columns | src/ui/analytics-section.ts:159-170 | a chart of n columns has n columns |
| Analytics.ColumnsAt | src/ui/analytics-section.ts:159-170 | column i is the row of day first + i with label i, marked when it is today's index |
| Analytics.ColumnFields | src/ui/analytics-section.ts:169 | column i carries label i and is marked exactly when i is today's index |
| Analytics.MonthLabels | src/ui/analytics-section.ts:186 | n month labels |
| Analytics.MonthLabelAt | src/ui/analytics-section.ts:186 | label i is the decimal text of i + 1 |
| Analytics.MonthLabelsReadBack | src/ui/analytics-section.ts:186 | each month label reads back as its day number |
| Analytics.MonthColumnAt | src/ui/analytics-section.ts:179-187 | column d of the month is the row of day d + 1, marked when that is today's date |
| Analytics.WeekColumnsFacts | src/ui/analytics-section.ts:153-172 | seven columns from this week's Monday labelled M T W T F S S, exactly today's marked, at index (getDay() + 6) % 7 |
| Analytics.MonthColumnsFacts | src/ui/analytics-section.ts:174-189 | one column per day of the month labelled "1".."n", exactly today's marked |
| Analytics.MaxTotal | src/ui/analytics-section.ts:45 | the chart maximum is >= 1, at least every column total, and is 1 or one of the totals |
| Analytics.SundayDropsWeek | src/store.ts:109-117 | as written, on a Sunday a session from Monday to Saturday of the displayed week is missing from the week's sessions although it lies in the period |
| Analytics.SundayWeekTotalCounterexample | src/store.ts:109-117 | on Sunday 4 January 1970, a one-hour session on Monday 29 December 1969 counts 0 as written and one hour in the corrected total |
| Analytics.PeriodTotalCountsContained | src/ui/analytics-section.ts:27-29 | in the corrected total, every session inside the period counts in full, and the total is never negative |
| Analytics.AnalyticsSection.constructor | src/ui/analytics-section.ts:15 | the section reads the given store |
| Analytics.AnalyticsSection.Sessions | src/ui/analytics-section.ts:133-135 | getSessions as written, the store's Sunday-anchored week or the month's sessions (Analytics.SessionsAsWritten); see SundayDropsWeek |
| Analytics.AnalyticsSection.WeekDailyData | src/ui/analytics-section.ts:153-172 | the loop yields the seven week columns from this week's Monday (properties in WeekColumnsFacts) |
| Analytics.AnalyticsSection.MonthDailyData | src/ui/analytics-section.ts:174-189 | the loop yields the columns for days 1..n of the month (properties in MonthColumnsFacts) |

## Left out

- **Persistence.** `load`/`save` file I/O and JSON (de)serialisation are not modelled. A save is counted, and `Store.Load` takes the parsed document (or its absence) as a parameter.
- **Dates as text.** ISO-8601 strings, `Date` parsing and calendar normalisation by `setDate`/`setHours` are not modelled. Dates are integer day numbers and times are integer milliseconds.
- **Local time.** The local time zone is taken to be UTC, with no daylight saving; every day is 86400000 ms long.
- **The clock.** `Date.now()` / `new Date()` become a `now` parameter, or a `Today` record in the analytics.
- **Absent store and timer methods.** `getTotalTimeInRange`, `getMonthSessions`, `getSessionsWithIndices`, `getStreak` and `Timer.addManual` are called by the UI but are not defined in the store or the timer. The clamped total and the month's sessions are modelled as assumptions (see above). The other three are not part of this model.
- **getContrastColor** is not part of this model (hex parsing and floating-point luminance).
- **Percentages and averages.** The bar heights, the percentages and the daily average (`totalMs / daysInPeriod`) are floating point. Only the divisor (`DaysInPeriod`) and the chart maximum (`MaxTotal`) are modelled.
- **formatHM on fractions.** It is modelled only on integer milliseconds, so its use on the fractional average is not.
- **Rendering.** DOM rendering, the modal's input listeners, `onOpen`/`onClose`, the Obsidian event bus and interval refreshes are UI plumbing and are not modelled. A `'change'` trigger appears only as an entry in the timer's ghost log.
- **`persistState`.** The injected callback is recorded as a `Persist(state)` effect, and what it writes is not modelled.
- **UpdateProject aliasing.** `Object.assign` on the project object returned by `find` mutates the stored object in place. The model replaces the element at the first matching index with the patched value, which yields the same stored list; aliasing by other holders of that object is not modelled.
- **Per-day queries.** `getWeekDailyData` and `getMonthDailyData` query the store once per day. The model computes each day's column with the pure `Analytics.DayRow` over the store's sessions, and the loop is proved equal to `Analytics.Columns`.
- **Analytics.SortByTime** is an insertion sort that places later elements after earlier ones with equal time, matching the stable `Array.prototype.sort`. Stability itself is not proved; the lemmas prove order, permutation and total.
- **Analytics.ProjectSummary** lists project ids with totals. The names and colours it displays come from `getProject`, modelled by `SessionStore.FindProject` and `Analytics.ColorOf`.
- **Utils.ClampedTotal** is the assumed meaning of the absent `getTotalTimeInRange`, as stated above.
- TimerMachine.StopStep: treats stop as one atomic step. In the source, stop awaits `addSession` (src/store.ts:68-71) and then `persistState` (src/timer.ts:59-61). A second start or stop issued before those resolve still sees the running state and finalises the same run again. A rejected save or `persistState` leaves the session pushed while the state is not reset, so the next stop appends that run a second time. Neither interleaving nor failure is modelled.
- TimerMachine.StartStep: uses one `now` for both the inner stop's end and the new start. The source reads the clock twice: once for the end (src/timer.ts:57) and once for the new `startTime` (src/timer.ts:44), after the inner stop's awaited writes. The model therefore leaves no gap between the two, and it inherits StopStep's atomicity.
- TimerMachine.Timer.Stop: is one atomic call with no failing writes, as for StopStep above.
- TimerMachine.Timer.Start: is one atomic call with a single clock reading, as for StartStep above.
- Utils.GroupByProject: keys come out in first-seen order. That holds for the plugin's own ids (`work`, `personal` and `project-<ms>`, src/types.ts:34-35 and src/ui/settings-tab.ts:28), but not for every string. `Object.entries` lists array-index ids such as "10" and "2" first, in numeric order. For an id naming an `Object.prototype` member ("constructor", "toString"), `??=` finds the inherited function and `push` throws a TypeError, and "__proto__" fails the same way. The model assumes ids of neither kind.
- **Timer.Elapsed, Timer.Status, Timer.ProjectId and Timer.StartTime** are getters with no contract of their own. Elapsed is stated through `ElapsedAt`, in `ElapsedAfterStart` and `StopRecordsElapsed`.

## Findings

| source | as written | input that shows it | evidently intended | confidence | as-written member | corrected member |
|---|---|---|---|---|---|---|
| src/store.ts:109-117 | getWeekSessions starts the week on Sunday (`getDate() - getDay()`), while the analytics period starts on Monday; on a Sunday the week's total and project summary only see that Sunday's sessions | today is Sunday 4 January 1970 (`Today(3, 0, 4, 31)`, day 3), with one one-hour session from midnight on Monday 29 December 1969 (day -3): the week total is 0 | the week's sessions are those starting in the displayed Monday-to-Sunday period, so that session counts one hour | not executed | Analytics.SundayWeekTotalCounterexample | Analytics.PeriodTotalCountsContained |
