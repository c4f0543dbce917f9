# RollCall-Pro in Dafny

RollCall-Pro is a React Native app that students use to track their class attendance. A student:

- keeps a list of **courses**, each with dated **sessions** marked present, absent, canceled or holiday (the home screen and the recorder also write `late` and `excused`);
- keeps a weekly **timetable** of class slots;
- sets a few **settings**: theme, accent colour, how many minutes before class to be reminded, and whether notifications are on.

From this state the app derives:

- attendance statistics per course and overall, with the best and worst course and the present streaks;
- the home screen's schedule for today;
- a week calendar with coloured dots per date;
- CSV export rows and a JSON backup;
- weekly local reminders, scheduled a fixed number of minutes before each class.

This project models that logic and proves what it guarantees. Each module follows one source file:

| module | source |
|---|---|
| `Model`, `Defaults` | `src/data/types.ts`, `src/data/defaultData.ts` |
| `DataStore` | `src/context/DataContext.tsx` |
| `Statistics`, `StatisticsScreen` | `src/utils/statistics.ts`, `app/statistics.tsx` |
| `Home` | `app/index.tsx` |
| `Notifications` | `src/utils/notifications.ts` |
| `Export` | `src/utils/export.ts` |
| `CalendarUtils`, `CalendarScreen` | `src/utils/calendarUtils.ts`, `app/calendar.tsx` |
| `TimetableScreen` | `app/timetable.tsx` |
| `EditSchedule` | `app/components/EditSchedule.tsx` |
| `SessionForm` | `src/components/EditSessionModal.tsx` |
| `SessionNotes` | `app/components/EditSessionModal.tsx` |
| `AddCourse` | `app/add-course.tsx` |
| `SettingsScreen` | `app/settings.tsx` |
| `TabBar` | `src/components/CustomTabBar.tsx` |

Shared modules:

- `Wrappers`: `Option` and `Result`.
- `Strings`: trim, split, join, case mapping, `parseInt`, `Number`, `includes`, and code-unit string order.
- `Sorting`: a stable insertion sort by a comparison, standing for JavaScript's stable `Array.prototype.sort`.
- `Filtering`: `Array.prototype.filter`.

Modelling choices:

- **Dates.** A session date is a day number: days since 1970-01-01, so `Weekday(d) = (d + 4) % 7` with 0 = Sunday. The app stores `YYYY-MM-DD` strings. The model takes them as already converted to day numbers and assumes that this conversion keeps their order; the calendar arithmetic behind it is not part of this model. `DateText.DateStringOrder` proves only the string half: on well-formed date strings, string order is year-then-month-then-day order.
- **Instants.** Where the code compares whole `Date` objects with their time of day (the calendar week in `src/utils/calendarUtils.ts`), a date is an `Instant`: a day number and the milliseconds since local midnight.
- **Clock and platform.** "Now", "today" and the platform (`isIOS`) are parameters.
- **Ids.** Fresh ids (`uuidv4`) are parameters.
- **Stored start times.** These stay strings wherever the source parses them. The model can therefore show how `parseInt` reads "09:00 AM" (see `Notifications.TwelveHourTextDrift`).
- **Picked times.** The schedule editor's picked times are minutes of the day.
- **Status.** It has six constructors. `src/data/types.ts:1` declares four values, but the home screen and the recorder also store `late` and `excused`. The statistics switch counts neither of them, and its streak loop treats both as breaking a run.
- **Classes.** The state store, the home screen, the calendar screen, the schedule editor and the session form mutate state. Each becomes a `class` whose methods state their whole new state. The statistics loops, the reminder loop and the week-date loop become methods with loop invariants, proved equal to specification functions. Those functions carry the properties as lemmas.
- **Code over description.** Where the written description of the app and its code differ, the model follows the code:
  - The home rate divides by every session (`app/index.tsx:68-72`).
  - A zero attendance threshold is dropped by `addCourse`'s truthiness test (`src/context/DataContext.tsx:130`).
  - A reminder time of 0 falls back to 15 (`src/utils/notifications.ts:68`).
  - A backup holds no timetable, so restoring it empties the timetable (`app/settings.tsx:134`).

## Model

| member | source | states |
|---|---|---|
| Model.DayNames | app/index.tsx:29 | seven lower-case names, index 0 is "sunday" and 6 is "saturday" |
| Model.Weekday | app/index.tsx:27-28 | the weekday of a day number is in 0..6 |
| Model.DeclaredStatuses | src/data/types.ts:1 | the declared status type has exactly four values; late and excused are not among them |
| Model.FindCourse | app/index.tsx:41 | `find` by id: None iff no course has the id, otherwise the first course with that id |
| Model.FindSession | app/index.tsx:55 | `find` by date: None iff no session has the date, otherwise the session at the first matching index |
| Model.FindSessionIndex | src/context/DataContext.tsx:141 | `findIndex` by date: the first index with that date, or the length when there is none |
| Defaults.DefaultSettings | src/data/defaultData.ts:4-9 | light theme, accent #4F46E5, 15-minute reminder, notifications on |
| Defaults.DefaultAppData | src/data/defaultData.ts:12-17 | empty courses, timetable and assignments with the default settings |
| Defaults.AddDummyData | src/data/defaultData.ts:20-27 | equals the default app data |
| Defaults.StoreDefaultSettings | src/context/DataContext.tsx:35-40 | the store's own default settings equal the shared defaults |
| DateText.Pad2 | app/index.tsx:17-18 | `padStart(2, '0')`: all digits, and below 100 two digits that read back as the number |
| DateText.DateStringFields | app/index.tsx:14-20 | a date string is 10 characters with dashes at 4 and 7; its year, month and day fields parse back to the inputs |
| DateText.PaddedReadsBack | app/index.tsx:17-18 | a padded number below 100 parses back to itself |
| DateText.DateStringOrder | src/data/types.ts:4 | string order of two YYYY-MM-DD dates is exactly chronological order |
| DateText.MonthDayOrder | src/data/types.ts:4 | string order of the "-MM-DD" tails is month-then-day order |
| Sorting.Insert | src/context/DataContext.tsx:161 | inserting adds exactly that element to the multiset |
| Sorting.SortBy | src/context/DataContext.tsx:161 | sorting is a permutation of its input |
| Sorting.InsertSorted | src/context/DataContext.tsx:161 | inserting into a sorted list by a total preorder keeps it sorted |
| Sorting.SortBySorted | src/context/DataContext.tsx:161 | the result is sorted for any total preorder |
| Sorting.SortByMembers | src/context/DataContext.tsx:161 | the sorted list has exactly the input's elements |
| Sorting.SortByOfSorted | src/context/DataContext.tsx:161 | an already sorted list is returned unchanged (stability) |
| Filtering.Filter | src/context/DataContext.tsx:227 | keeps exactly the elements satisfying the predicate, never lengthening the list |
| Filtering.FilterConcat | src/context/DataContext.tsx:227 | filtering distributes over concatenation, so survivors keep their order |
| Filtering.FilterAllKept | src/context/DataContext.tsx:227 | a filter that keeps every element is the identity |
| Filtering.FilterIdempotent | src/components/EditSessionModal.tsx:53 | filtering twice equals filtering once |
| Filtering.FilterIndex | src/utils/statistics.ts:101 | each result element comes from an input position whose surviving predecessors are exactly the earlier results |
| Strings.Trim | app/add-course.tsx:22 | `trim()`: the result has no whitespace at either end, and is empty exactly when the input is blank |
| Strings.TrimIdempotent | src/components/EditSessionModal.tsx:52 | trimming twice equals trimming once |
| Strings.Lower | app/index.tsx:35 | `toLowerCase()` maps each character and keeps the length |
| Strings.Upper | app/timetable.tsx:29 | `toUpperCase()` maps each character and keeps the length |
| Strings.Split | app/components/EditSessionModal.tsx:33 | `split` yields at least one part and no part contains the separator |
| Strings.SplitJoin | app/components/EditSessionModal.tsx:20-33 | splitting a join of separator-free parts gives the parts back |
| Strings.JoinSplit | app/components/EditSessionModal.tsx:20-33 | joining the parts of a split with the separator gives the string back |
| Strings.ParseInt | src/utils/notifications.ts:93-94 | `parseInt(_, 10)` is NaN exactly when no digit follows the leading whitespace and optional sign |
| Strings.ParseIntOfNatString | app/statistics.tsx:43 | a printed number followed by a non-digit parses back to that number |
| Strings.ParseIntOfDigits | src/utils/notifications.ts:93-94 | a digit run followed by a non-digit parses to that run's value |
| Strings.ToNumber | app/timetable.tsx:27 | `Number`: blank text is 0, and a pure digit string reads as `parseInt` reads it |
| Strings.StrLeTotal | app/index.tsx:36 | code-unit string order is total |
| Strings.StrLeTransitive | app/index.tsx:36 | code-unit string order is transitive |
| Strings.FixedWidthDigitsOrder | src/data/types.ts:4 | for equal-width digit strings, string order is numeric order |
| Statistics.RoundPercent | src/utils/statistics.ts:58-60 | the percentage is `present/relevant*100` rounded half up, and lies in 0..100 when present ≤ relevant |
| Statistics.CountStatus | src/utils/statistics.ts:28-43 | a status count never exceeds the number of sessions |
| Statistics.CountStatusConcat | src/utils/statistics.ts:28-43 | counts add over concatenation |
| Statistics.StatusCountsPartition | src/utils/statistics.ts:28-43 | the six status counts sum to the number of sessions |
| Statistics.BaselinePresent | src/utils/statistics.ts:46-49 | the baseline adds the attended classes when both counts are positive, and nothing otherwise |
| Statistics.BaselineAbsent | src/utils/statistics.ts:46-53 | the baseline adds done − attended absences when classes were done and more were done than attended, and nothing otherwise |
| Statistics.BaselineContribution | src/utils/statistics.ts:45-54 | with 0 < attended ≤ done the baseline adds exactly `done` classes to present+absent; with attended > done it adds no absence; with nothing done it adds nothing |
| Statistics.CourseAttendance | src/utils/statistics.ts:18-72 | present and absent are the session counts plus the baseline's share; canceled and holiday are the session counts; the percentage is null exactly when present+absent is 0 and otherwise is round(present/(present+absent)·100) in 0..100; totalSessions is sessions plus totalClassesDone |
| Statistics.NoBaselineTallies | src/utils/statistics.ts:28-43 | without a baseline, present/absent are the status counts and the four tallies miss exactly the late and excused sessions |
| Statistics.BaselineOnlyExample | src/utils/statistics.ts:45-54 | a course with no sessions and a baseline of 8 attended out of 10 scores 80 |
| Statistics.CalculateCourseAttendance | src/utils/statistics.ts:18-72 | the counting loop returns exactly the tallies of the specification |
| Statistics.PooledEqualsTotal | src/utils/statistics.ts:81-88 | the loop's pooled sums equal the totals over courses with a percentage |
| Statistics.OverallAttendance | src/utils/statistics.ts:77-91 | null exactly when the pooled denominator is 0; otherwise the rounded pooled percentage in 0..100 |
| Statistics.CalculateOverallAttendance | src/utils/statistics.ts:77-91 | the pooling loop computes the overall percentage |
| Statistics.CountUniform | src/utils/statistics.ts:28-43 | sessions of one status count fully for it and not at all for another |
| Statistics.PooledNotAveraged | src/utils/statistics.ts:77-91 | courses at 2P/2A (50%) and 8P (100%) give 83 overall, not the average 75 |
| Statistics.Pct | src/utils/statistics.ts:108 | the compared percentage is the stat's own whenever it has one |
| Statistics.ValidStats | src/utils/statistics.ts:101 | the `Filter` of the stats with a percentage: it holds exactly those stats, and is empty exactly when none has one |
| Statistics.FirstMaxOfValid | src/utils/statistics.ts:101-114 | a first maximum of the filtered stats is a first maximum among all the stats |
| Statistics.FirstMinOfValid | src/utils/statistics.ts:101-114 | a first minimum of the filtered stats is a first minimum among all the stats |
| Statistics.FindBestAndWorstCourses | src/utils/statistics.ts:97-117 | both are null iff no stat has a percentage; otherwise best is the first stat, among all the stats given, with the highest percentage and worst the first with the lowest |
| Statistics.Counted | src/utils/statistics.ts:141-143 | dropping canceled/holiday leaves no skipped status |
| Statistics.CountedConcat | src/utils/statistics.ts:136-151 | skipping distributes over concatenation |
| Statistics.CountedIgnoresSkippedSuffix | src/utils/statistics.ts:160-170 | trailing canceled/holiday sessions do not change the counted sequence |
| Statistics.TrailingPresent | src/utils/statistics.ts:139-150 | the final present run is at most the sequence length |
| Statistics.Statuses | src/utils/statistics.ts:137 | the status projection keeps length and order |
| Statistics.AttendanceStreaks | src/utils/statistics.ts:124-127 | a course without sessions has streaks (0, 0) |
| Statistics.CalculateAttendanceStreaks | src/utils/statistics.ts:124-173 | the sort and both loops return the specified (current, longest) |
| Statistics.LatestCountedIndex | src/utils/statistics.ts:160-170 | the backward scan stops just after the latest non-skipped session, and everything after it is skipped |
| Statistics.ForwardPass | src/utils/statistics.ts:136-156 | the forward loop ends with the final present run and the longest present run of the counted statuses |
| Statistics.TrailingAtMostLongest | src/utils/statistics.ts:154-156 | the final run is never longer than the longest run |
| Statistics.RunsAtMostPresentCount | src/utils/statistics.ts:136-156 | no run is longer than the number of present statuses |
| Statistics.TrailingRunBound | src/utils/statistics.ts:139-150 | a run of present reaching the end is no longer than the final run |
| Statistics.TrailingRunIsRun | src/utils/statistics.ts:139-150 | the final run is a run of present |
| Statistics.LongestRunIsLongest | src/utils/statistics.ts:136-156 | the longest streak is the length of the longest block of consecutive present statuses: no block is longer, and one block has that length |
| Statistics.PresentCountCounted | src/utils/statistics.ts:141-143 | skipping canceled/holiday keeps every present |
| Statistics.CountStatusChronological | src/utils/statistics.ts:130 | sorting by date keeps every status count |
| Statistics.StreakBounds | src/utils/statistics.ts:124-156 | 0 ≤ current ≤ longest ≤ number of present sessions |
| Statistics.SkippedIsTransparent | src/utils/statistics.ts:141-143 | a canceled/holiday session neither extends nor breaks a run |
| Statistics.StreakExample | src/utils/statistics.ts:136-170 | present, present, absent, present gives current 1 and longest 2 |
| Statistics.RunsOfExample | src/utils/statistics.ts:136-156 | on P,P,A,P the final run is 1 and the longest 2 |
| Statistics.CountedExample | src/utils/statistics.ts:141-143 | P,P,A,P has nothing to skip |
| StatisticsScreen.AttendanceColor | app/statistics.tsx:48-53 | secondary text iff null, success iff ≥ 90, warning iff 75..89, danger iff below 75 |
| StatisticsScreen.ColorMonotone | app/statistics.tsx:48-53 | raising the percentage never loses success; lowering it never loses danger |
| StatisticsScreen.PercentText | app/statistics.tsx:43 | "N/A" iff null; otherwise ends in "%" and reads back as the percentage |
| StatisticsScreen.PercentReadsBack | app/statistics.tsx:125 | "<n>%" parses back to n |
| StatisticsScreen.CourseText | app/statistics.tsx:44-45 | "N/A" iff no course; otherwise starts with the course name and ends with ")" |
| StatisticsScreen.CourseTextNumber | app/statistics.tsx:44-45 | the text is "<name> (<n>%)", and the number inside reads back as the percentage |
| DataStore.NewerFirstIsTotalPreorder | src/context/DataContext.tsx:161 | the newest-first comparison is a total preorder |
| DataStore.Upserted | src/context/DataContext.tsx:141-158 | the upsert replaces the matching session's status, or adds one new session, as a multiset |
| DataStore.UpsertRecords | src/context/DataContext.tsx:136-158 | an existing session keeps notes/assignments and the count; otherwise the count grows by one; sessions on other dates survive |
| DataStore.UpsertSorted | src/context/DataContext.tsx:160-161 | after the upsert, sessions are sorted newest first |
| DataStore.UpsertKeepsDatesUnique | src/context/DataContext.tsx:141-158 | unique session dates stay unique |
| DataStore.WithSession | src/context/DataContext.tsx:137-166 | the course list keeps its length; courses with another id are unchanged and each course with that id gets the upserted sessions |
| DataStore.WithSessionChangesOnlyTarget | src/context/DataContext.tsx:137-166 | only the target course's sessions change; they are the upserted list, sorted newest first, hold a session on that date with the new status, and keep every session on another date |
| DataStore.WithDetails | src/context/DataContext.tsx:188-203 | only the session on that date can change |
| DataStore.WithDetailsEffect | src/context/DataContext.tsx:188-203 | no-op without a session on that date; otherwise only the provided fields change and the status is kept |
| DataStore.WithSessionDetails | src/context/DataContext.tsx:180-209 | courses other than the target are unchanged; the target's sessions become the details update of its old ones |
| DataStore.WithSessionDetailsTarget | src/context/DataContext.tsx:185-206 | in the target course only the first session on that date changes: date and status kept, each provided field set; no change without such a session |
| DataStore.NewCourse | src/context/DataContext.tsx:122-134 | empty sessions; professor and threshold are kept only when truthy, so a threshold of 0 is dropped |
| DataStore.PatchCourse | src/context/DataContext.tsx:212-222 | a patch never changes the id or the sessions |
| DataStore.PatchCourseLaws | src/context/DataContext.tsx:212-222 | an empty patch is the identity, patching is idempotent, and an explicit undefined clears the field |
| DataStore.WithCoursePatch | src/context/DataContext.tsx:212-222 | only the course with that id changes, and ids and sessions are kept |
| DataStore.DeleteCourseCascade | src/context/DataContext.tsx:225-229 | exactly the course and its timetable entries go; deleting an absent id changes nothing |
| DataStore.ApplySettings | src/context/DataContext.tsx:171-177 | each field is the patch's value if given, else the previous one (defaults when there are none) |
| DataStore.ApplySettingsLaws | src/context/DataContext.tsx:171-177 | an empty patch yields the previous or default settings, and reapplying a patch changes nothing |
| DataStore.Store.constructor | src/context/DataContext.tsx:47-50 | empty courses and timetable, no settings, loading |
| DataStore.Store.Snapshot | src/context/DataContext.tsx:99-120 | the saved AppData is the current courses, settings and timetable without assignments |
| DataStore.Store.LoadData | src/context/DataContext.tsx:79-96 | loading ends with settings set: stored fields or defaults |
| DataStore.Store.AddCourse | src/context/DataContext.tsx:122-134 | appends the new course and changes nothing else |
| DataStore.Store.AddAttendanceSession | src/context/DataContext.tsx:136-169 | courses become the upserted and re-sorted list; nothing else changes |
| DataStore.Store.UpdateSettings | src/context/DataContext.tsx:171-177 | settings become the merged settings; nothing else changes |
| DataStore.Store.UpdateSessionDetails | src/context/DataContext.tsx:180-209 | courses get the details merged into the matching session; nothing else changes |
| DataStore.Store.UpdateCourse | src/context/DataContext.tsx:212-222 | courses get the patch; nothing else changes |
| DataStore.Store.DeleteCourse | src/context/DataContext.tsx:225-229 | removes the course and its timetable entries, keeping the order of the rest |
| DataStore.Store.RestoreAllData | src/context/DataContext.tsx:232-241 | fails and changes nothing iff courses or settings is missing; otherwise replaces the state, with the timetable defaulting to [] |
| DataStore.Store.AddTimetableEntry | src/context/DataContext.tsx:244-250 | appends the entry and changes nothing else |
| DataStore.Store.DeleteTimetableEntry | src/context/DataContext.tsx:253-255 | removes exactly the entries with that id |
| Home.TodayDateStringFields | app/index.tsx:14-20 | YYYY-MM-DD with a 1-based month: 10 characters whose fields parse back to year, month index + 1 and day |
| Home.StartsNoLaterIsTotalPreorder | app/index.tsx:36 | the start-time comparison is a total preorder |
| Home.TodayEntriesSpec | app/index.tsx:33-37 | exactly the entries whose lower-cased day is today's name, sorted by start time |
| Home.ScheduleItemFor | app/index.tsx:40-48 | a missing course gives "Unknown Course" and the border colour; otherwise the course's name and colour, with empty ones replaced |
| Home.TodaySchedule | app/index.tsx:39-49 | one schedule item per entry, in order |
| Home.ScheduledSnoc | app/index.tsx:53 | a course is scheduled in a longer list iff it was before or is the last item's course |
| Home.StatusesOfSpec | app/index.tsx:51-61 | a course has an initial status iff it is scheduled today and has a session dated today, and the status is that session's |
| Home.InitialStatuses | app/index.tsx:51-61 | the forEach loop builds exactly that map |
| Home.AllPresent | app/index.tsx:69-71 | present sessions never outnumber all sessions |
| Home.HomeAttendanceRate | app/index.tsx:68-72 | 0 with no sessions, otherwise round(present sessions / all sessions · 100); always in 0..100 |
| Home.HomeRateCountsEverySession | app/index.tsx:68-72 | one present and one holiday session give 50 here but 100 in the statistics |
| Home.HomeScreen.constructor | app/index.tsx:27-61 | the schedule is today's entries (by weekday, sorted) joined with their courses, and the statuses start as the initial map built from that schedule |
| Home.HomeScreen.HandleRecord | app/index.tsx:63-66 | upserts today's session and changes only that course's status |
| Notifications.DayOfWeekToIndex | src/utils/notifications.ts:6-14 | defined exactly on the seven lower-case names, as their 0-based index |
| Notifications.DayOfWeekToIndexInverse | src/utils/notifications.ts:6-14 | each name maps back to its own index |
| Notifications.LeadMinutes | src/utils/notifications.ts:68 | the reminder time, or 15 when it is 0 |
| Notifications.ParseStartOfDigits | src/utils/notifications.ts:92-97 | "HH:MM…" gives the two digit runs' values when no further ':' follows |
| Notifications.StartParts | src/utils/notifications.ts:92 | splitting at ':' gives the hour part and the rest |
| Notifications.TwelveHourTextDrift | src/utils/notifications.ts:92-94 | "01:30 PM" is read as 01:30, ignoring PM |
| Notifications.MinuteRollback | src/utils/notifications.ts:108-111 | borrowing keeps hour·60+minute and ends with the minute in 0..59 |
| Notifications.TriggerClockInRange | src/utils/notifications.ts:102-118 | for valid inputs the trigger is in range and lies `lead` minutes before the class, modulo a week |
| Notifications.SundayRollsBackToSaturday | src/utils/notifications.ts:112-118 | 00:05 Sunday with 15 minutes lead becomes 23:50 Saturday |
| Notifications.Rollover | src/utils/notifications.ts:103-118 | the while loop computes the trigger clock |
| Notifications.NextOccurrenceDays | src/utils/notifications.ts:28-39 | for weekdays in range the offset is within a week, lands on the target weekday, and is a full week exactly when the target is today and its time is not later than now |
| Notifications.GetNextOccurrence | src/utils/notifications.ts:23-45 | the method computes `NextOccurrenceDays`: the offset is (target − today) mod 7, raised to 7 only when it is 0 and the time is not in the future; the result is in the future |
| Notifications.TriggerFor | src/utils/notifications.ts:125-145 | iOS gets a repeating calendar trigger at the rolled-back hour and minute with weekday the rolled-back weekday + 1 (in 1..7); others get a date trigger at that hour and minute, the next occurrence of the rolled-back weekday, 0..7 days ahead |
| Notifications.TriggerForLeadsClass | src/utils/notifications.ts:102-145 | for an in-range class time and lead, the iOS trigger lies exactly `lead` minutes before the class in the week, and the date trigger lands on the weekday of that earlier time |
| Notifications.TriggerWeekdayInRange | src/utils/notifications.ts:112-118 | the rolled-back weekday stays in 0..6 |
| Notifications.ComputeTrigger | src/utils/notifications.ts:102-145 | the trigger-building code computes the specified trigger |
| Notifications.EntryReminder | src/utils/notifications.ts:84-157 | a reminder exists iff the course exists, the time parses and the day is known; its id is "reminder-"+entry id, its title "Upcoming Class: "+course name, it carries course, entry and start time, and its trigger is at the parsed time rolled back by the lead |
| Notifications.CollectConcat | src/utils/notifications.ts:82 | collecting per entry distributes over concatenation |
| Notifications.RemindersConcat | src/utils/notifications.ts:82-164 | one bad entry does not stop the others: reminders of a+b are those of a then those of b |
| Notifications.RemindersFromEntries | src/utils/notifications.ts:121-154 | every reminder comes from an entry with an existing course and carries its id |
| Notifications.Schedules | src/utils/notifications.ts:148-157 | one schedule call per reminder, in order |
| Notifications.ScheduleEffects | src/utils/notifications.ts:52-66 | everything is cancelled first; disabled notifications or missing data schedule nothing |
| Notifications.RemindersStep | src/utils/notifications.ts:82-157 | each loop iteration adds that entry's reminder, if any |
| Notifications.ScheduledStep | src/utils/notifications.ts:82-157 | the effect log after an iteration is the specification for the longer prefix |
| Notifications.ScheduleEntry | src/utils/notifications.ts:84-157 | one iteration schedules exactly that entry's reminder or skips it |
| Notifications.ScheduleCourseReminders | src/utils/notifications.ts:52-166 | the loop produces exactly the specified effect log |
| Notifications.CancelAllCourseReminders | src/utils/notifications.ts:170-173 | only cancels everything |
| Export.CourseRows | src/utils/export.ts:31-42 | one row per session of the course, in order |
| Export.RowsCount | src/utils/export.ts:19-44 | there are as many rows as sessions across all courses |
| Export.RowsAreSessions | src/utils/export.ts:19-44 | every (course, session) pair has its row, and every row comes from one |
| Export.RowFields | src/utils/export.ts:32-41 | a row copies the course id, name, professor and the session date, status and notes; assignments are absent iff the session has none |
| Export.GenerateAttendanceCsv | src/utils/export.ts:16-48 | empty output iff no course has a session; otherwise all rows |
| CalendarUtils.LongDayNames | src/utils/calendarUtils.ts:35-37 | seven long weekday names |
| CalendarUtils.LowerLongDayName | src/utils/calendarUtils.ts:65 | a long name lower-cased is the timetable's day name |
| CalendarUtils.MondayOffset | src/utils/calendarUtils.ts:16-17 | the offset back to Monday is in 0..6 |
| CalendarUtils.MondayOffsetIsMonday | src/utils/calendarUtils.ts:17-21 | stepping back by it always lands on a Monday |
| CalendarUtils.DayName | src/utils/calendarUtils.ts:35-37 | a date's long day name lower-cases to the timetable's name for its weekday |
| CalendarUtils.GetCurrentWeekDates | src/utils/calendarUtils.ts:14-32 | seven consecutive days from that Monday, each keeping the current time of day, and "now" is one of them |
| CalendarUtils.DayClassesUnsorted | src/utils/calendarUtils.ts:64-74 | the entries on that day (ignoring case) whose course exists, in timetable order with duplicates kept, each paired with the course `find` returns |
| CalendarUtils.SlotStartsNoLaterIsTotalPreorder | src/utils/calendarUtils.ts:77 | the class comparison is a total preorder |
| CalendarUtils.PrepareCalendarData | src/utils/calendarUtils.ts:50-88 | one record per input date, in order |
| CalendarUtils.DayDataSpec | src/utils/calendarUtils.ts:55-87 | a day's record has its date, its weekday's name and exactly its classes, sorted by start time; it is marked today exactly when the date is today at midnight |
| CalendarUtils.DefaultWeekTodayOnlyAtMidnight | src/utils/calendarUtils.ts:14-61 | on the default week no record is marked today unless "now" is exactly midnight, and then exactly today's record is |
| CalendarUtils.GetAttendanceForCourse | src/utils/calendarUtils.ts:98-110 | keeps length, order, dates and statuses, and names each date's weekday |
| CalendarScreen.CoursesWithSessionOn | app/calendar.tsx:74-89 | the positions of exactly the courses with a session on that date, strictly increasing |
| CalendarScreen.SessionsOn | app/calendar.tsx:74-89 | the j-th detail is the first session on that date of the j-th such course, so one detail per course, in course order |
| CalendarScreen.SessionsOnSound | app/calendar.tsx:74-89 | each detail is a course's first session on that date |
| CalendarScreen.SessionsOnComplete | app/calendar.tsx:74-89 | every course with a session on that date contributes one |
| CalendarScreen.DotColor | app/calendar.tsx:105-111 | a dot colour is one of the five palette colours |
| CalendarScreen.AddDot | app/calendar.tsx:98-115 | marks the date and ensures a dot of the status colour; other dates are unchanged |
| CalendarScreen.CourseVisits | app/calendar.tsx:97-98 | one visit per session of the course, in order |
| CalendarScreen.MarksOfStep | app/calendar.tsx:97-116 | marking one more session adds that session's dot |
| CalendarScreen.AddDotKeepsSessionMarks | app/calendar.tsx:112-114 | adding a dot keeps marks well formed: marked, with pairwise distinct palette colours |
| CalendarScreen.MarksOfDomain | app/calendar.tsx:96-117 | only dates carrying a session are marked |
| CalendarScreen.MarksOfAreSessionMarks | app/calendar.tsx:96-117 | every mark is well formed |
| CalendarScreen.MarksOfHaveColors | app/calendar.tsx:96-117 | each session's date shows a dot of its status colour |
| CalendarScreen.AddDotOrigin | app/calendar.tsx:97-116 | after adding a dot, each dot was there before or has the new session's colour on its date |
| CalendarScreen.MarksOfDotsFromSessions | app/calendar.tsx:96-117 | every dot of a date has the colour of some session on that date |
| CalendarScreen.DistinctColorsBound | app/calendar.tsx:112-114 | pairwise distinct dots drawn from a colour set are no more than the set's size |
| CalendarScreen.AtMostFiveDots | app/calendar.tsx:112-114 | a date carries at most five dots |
| CalendarScreen.VisitsCoverSessions | app/calendar.tsx:97-98 | every (course, session) pair is visited |
| CalendarScreen.EverySessionDateMarked | app/calendar.tsx:96-117 | every session's date is marked and shows its status colour |
| CalendarScreen.Highlight | app/calendar.tsx:120-129 | the date becomes selected with the accent or #a0a0a0, keeping dots and marked; other dates are unchanged |
| CalendarScreen.Accent | app/calendar.tsx:126 | never empty: the stored accent colour when set, otherwise the default #4F46E5 |
| CalendarScreen.HighlightedSpec | app/calendar.tsx:131-134 | today is always selected (accent iff nothing or today is selected); a distinct selected date gets the accent; dots are kept |
| CalendarScreen.CalendarView.constructor | app/calendar.tsx:71-72 | nothing selected and no sessions shown |
| CalendarScreen.CalendarView.HandleDayPress | app/calendar.tsx:74-89 | remembers the day and shows that day's sessions |
| CalendarScreen.CalendarView.MarkedDates | app/calendar.tsx:91-137 | the loops build the specified highlighted marks |
| CalendarScreen.AddCourseDots | app/calendar.tsx:97-116 | the inner loop adds every session of the course |
| CalendarScreen.AddDotStep | app/calendar.tsx:98-115 | the loop body adds one dot |
| TimetableScreen.DaysOfWeek | app/timetable.tsx:12 | seven lower-case names starting on Monday |
| TimetableScreen.ParseTime | app/timetable.tsx:24-38 | the hour and minute set on the picker date are the parsed clock |
| TimetableScreen.AdjustHourSpec | app/timetable.tsx:29-34 | PM below 12 adds 12; 12 AM is 0; other modifiers keep the hour; hours 1..12 map into 0..23 |
| TimetableScreen.ReadHMOfDigits | app/timetable.tsx:27 | "HH:MM" reads as both digit values |
| TimetableScreen.SplitHM | app/timetable.tsx:27 | splitting "HH:MM" at ':' gives both parts |
| TimetableScreen.TimeAndModifierOf | app/timetable.tsx:26 | splitting at a space separates the time from the modifier, or gives no modifier |
| TimetableScreen.NoSpaceInHM | app/timetable.tsx:26 | an "HH:MM" text has no space |
| TimetableScreen.ClockOfHM | app/timetable.tsx:24-38 | "HH:MM mod" parses to the adjusted hour (modifier upper-cased) and the minutes |
| TimetableScreen.TwelveHourClock | app/timetable.tsx:24-38 | hours 1..12 with AM/PM in any case give 0..23; "12 PM" stays 12 and "12 AM" is 0 |
| TimetableScreen.ClockOfSplit | app/timetable.tsx:26-34 | the parsed clock is the adjusted hour and the minutes of the split parts |
| TimetableScreen.NoModifierKeepsHour | app/timetable.tsx:29-34 | without a modifier the hour is unchanged |
| TimetableScreen.FormatThenParse | app/timetable.tsx:15-38 | a formatted 12-hour time parses back to the same hour and minute |
| TimetableScreen.AmReadsBack | app/timetable.tsx:15-38 | morning times read back exactly |
| TimetableScreen.PmReadsBack | app/timetable.tsx:15-38 | afternoon times read back exactly |
| TimetableScreen.EntriesForSelectedDaySpec | app/timetable.tsx:57-61 | exactly the entries with that day (case-sensitive), sorted by start time |
| TimetableScreen.GetCourseName | app/timetable.tsx:63-65 | never empty: "Unknown Course" for an unknown id or an empty name, otherwise the course's name |
| TimetableScreen.HandleAddEntry | app/timetable.tsx:67-83 | adds the entry iff course, start, end and location are all non-empty; nothing else changes |
| EditSchedule.WeekDays | app/components/EditSchedule.tsx:19 | seven capitalised names starting on Monday |
| EditSchedule.StartMinutes | app/components/EditSchedule.tsx:27-32 | a parsed time is a non-negative number of minutes |
| EditSchedule.FormatHMReadsBack | app/components/EditSchedule.tsx:22-32 | a formatted time parses back to the same minute of the day |
| EditSchedule.StartMinutesOfRead | app/components/EditSchedule.tsx:27-32 | a parsed hour and minute give hour·60+minute |
| EditSchedule.MinutesOfNumbers | app/components/EditSchedule.tsx:28 | two numbers give hour·60+minute |
| EditSchedule.EmptyTimeUnread | app/components/EditSchedule.tsx:52 | an empty start time parses to nothing |
| EditSchedule.AvailableDay | app/components/EditSchedule.tsx:76-77 | the new slot's day is a weekday name |
| EditSchedule.FirstUnusedIndex | app/components/EditSchedule.tsx:77 | the first index whose day is unused, or the length when all are used |
| EditSchedule.AddSlot | app/components/EditSchedule.tsx:74-83 | appends exactly one 09:00–10:00 slot, leaving the others unchanged |
| EditSchedule.AddSlotDay | app/components/EditSchedule.tsx:76-81 | the new day is the first unused day from Monday, or Monday when all are used |
| EditSchedule.RemoveSlot | app/components/EditSchedule.tsx:85-87 | removes exactly index i and keeps the order, and changes nothing for an index outside the list |
| EditSchedule.HandleDayChange | app/components/EditSchedule.tsx:68-72 | changes only the day of slot i |
| EditSchedule.HourLater | app/components/EditSchedule.tsx:56 | one hour later on the clock face, wrapping at midnight |
| EditSchedule.RetimedSpec | app/components/EditSchedule.tsx:45-59 | a start change sets the start; an end at or before the start becomes the picked time plus an hour; other fields are kept |
| EditSchedule.PushedEndCanPrecedeStart | app/components/EditSchedule.tsx:51-59 | the fix-up adds only one hour, so the end can still precede the start |
| EditSchedule.ScheduleEditor.constructor | app/components/EditSchedule.tsx:38-41 | no picker, no editing index, hidden, and the selected time is now |
| EditSchedule.ScheduleEditor.OpenTimePicker | app/components/EditSchedule.tsx:89-94 | remembers index and field, shows the picker, and selects that field's time |
| EditSchedule.ScheduleEditor.HandleTimeChange | app/components/EditSchedule.tsx:43-66 | changes the schedule iff a time was set while editing; the picker is always reset |
| SessionForm.SpliceOne | src/components/EditSessionModal.tsx:65-69 | `splice(i, 1)`: removes index i, counting from the end when negative, and nothing when past the end |
| SessionForm.SessionEditor.constructor | src/components/EditSessionModal.tsx:36-38 | empty notes, assignments and input |
| SessionForm.SessionEditor.Reset | src/components/EditSessionModal.tsx:41-47 | a session loads its notes ("" if none), assignments ([] if none) and clears the input; no session keeps the form |
| SessionForm.SessionEditor.HandleSave | src/components/EditSessionModal.tsx:49-56 | notes trimmed; exactly the non-blank assignments, untrimmed and in order |
| SessionForm.SessionEditor.AddAssignment | src/components/EditSessionModal.tsx:58-63 | non-blank input is appended trimmed and cleared; blank input changes nothing |
| SessionForm.SessionEditor.RemoveAssignment | src/components/EditSessionModal.tsx:65-69 | assignments lose exactly the spliced index |
| SessionForm.AddThenSave | src/components/EditSessionModal.tsx:53-60 | an added assignment is saved, last |
| SessionForm.SaveIdempotent | src/components/EditSessionModal.tsx:49-54 | saving what was saved changes nothing |
| SessionNotes.Load | app/components/EditSessionModal.tsx:17-26 | loads notes ("" if none) and the assignments joined by newlines; a null session clears both |
| SessionNotes.TrimmedLines | app/components/EditSessionModal.tsx:32-34 | one trimmed line per newline-separated part |
| SessionNotes.AssignmentLines | app/components/EditSessionModal.tsx:32-35 | exactly the non-empty trimmed lines |
| SessionNotes.AssignmentLinesTrimmed | app/components/EditSessionModal.tsx:32-35 | saved assignments are non-empty and trimmed |
| SessionNotes.TrimmedLinesOfTrimmed | app/components/EditSessionModal.tsx:34 | lines that are already trimmed are kept as they are |
| SessionNotes.Save | app/components/EditSessionModal.tsx:28-42 | nothing without a session; notes undefined iff blank, else trimmed; assignments undefined iff no line survives |
| SessionNotes.AssignmentsRoundTrip | app/components/EditSessionModal.tsx:20-35 | trimmed, non-empty, newline-free assignments survive join then split |
| SessionNotes.EmptyTextHasNoLines | app/components/EditSessionModal.tsx:39 | empty text gives no assignments |
| SessionNotes.LoadThenSaveAssignments | app/components/EditSessionModal.tsx:17-40 | loading then saving unchanged gives the same assignments, with an empty list saved as undefined |
| SessionNotes.LoadThenSaveNotes | app/components/EditSessionModal.tsx:19-38 | trimmed notes survive; missing or blank notes are saved as undefined |
| AddCourse.ReadThreshold | app/add-course.tsx:27-35 | blank is no threshold; otherwise accepted iff `parseInt` gives a number in 0..100 |
| AddCourse.HandleAddCourse | app/add-course.tsx:21-49 | a blank name is refused first, then a bad threshold; otherwise the name and professor are trimmed and an empty professor is undefined |
| AddCourse.ThresholdOfNumber | app/add-course.tsx:29-34 | a plain number is accepted iff it is at most 100 |
| AddCourse.TrailingTextIgnored | app/add-course.tsx:29 | text after the number is ignored ("80%" is 80) |
| AddCourse.NonNumericRefused | app/add-course.tsx:29-30 | text starting with a non-digit, non-sign character is refused |
| AddCourse.ZeroThresholdDropped | app/add-course.tsx:27-35 | a typed 0 is accepted by the form but dropped by the store |
| AddCourse.PreviewColor | app/add-course.tsx:104 | a valid hex colour is previewed, anything else shows the border colour |
| AddCourse.HexColorIgnoresCase | app/add-course.tsx:104 | the hex check ignores letter case |
| AddCourse.InitialColorValid | app/add-course.tsx:14 | the initial colour passes the check |
| SettingsScreen.ReminderValues | app/settings.tsx:77-78 | six options, the first being cancel and the rest positive minutes |
| SettingsScreen.ReminderPatch | app/settings.tsx:251-257 | a patch exists iff an index 1..5 was picked, and sets only reminderTime |
| SettingsScreen.PickedReminderApplied | app/settings.tsx:251-257 | a picked option sets reminderTime to 5, 10, 15, 30 or 60 and keeps the other settings |
| SettingsScreen.ReminderDisplay | app/settings.tsx:263-266 | "Not set" iff the time is 0, else "<n> minutes before" |
| SettingsScreen.SwitchesSetOneField | app/settings.tsx:234-240 | the theme switch sets dark/light and the notifications switch sets its flag; nothing else changes |
| SettingsScreen.BackupPayload | app/settings.tsx:134 | a backup holds courses and settings and no timetable |
| SettingsScreen.ArraySettingsPass | app/settings.tsx:212 | settings given as an array pass the shape check; null settings or non-array courses fail it |
| SettingsScreen.RestoreFromFile | app/settings.tsx:211-217 | restores iff the shape check passes, and otherwise changes nothing |
| SettingsScreen.BackupThenRestore | app/settings.tsx:134 | restoring a backup keeps courses and settings but empties the timetable |
| SettingsScreen.HandleExportData | app/settings.tsx:90-98 | no data iff no course has a session; otherwise one row per session |
| TabBar.TabNames | src/components/CustomTabBar.tsx:95-102 | six distinct tab names, "index" first |
| TabBar.TabRoute | src/components/CustomTabBar.tsx:104-129 | "index" and unknown names route to "/(tabs)", the others to "/(tabs)/"+name |
| TabBar.PressedTabActive | src/components/CustomTabBar.tsx:104-146 | after pressing a tab, that tab is active |
| TabBar.NestedPathsStayActive | src/components/CustomTabBar.tsx:143-145 | a non-index tab stays active on any longer path containing its route |
| TabBar.TabNamesApart | src/components/CustomTabBar.tsx:95-102 | tab names have no slash and differ within their first two letters |
| TabBar.RouteSlashes | src/components/CustomTabBar.tsx:104-129 | a route has slashes only at positions 0 and 7 |
| TabBar.OnlyPressedTabActive | src/components/CustomTabBar.tsx:132-146 | after pressing a tab, no other tab is active |

## Left out

- Rendering, styles, themes, animations and navigation side effects. `src/utils/theme.ts` and the purely visual components are not part of this model.
- Debounced saving and notification rescheduling, timers and `useEffect` timing in `src/context/DataContext.tsx`. Each operation's resulting state is modelled, not when saves fire.
- AsyncStorage and JSON persistence (`src/utils/storage.ts` is not part of this model). Loading is a parameter that is either absent or a stored record with optional fields.
- The Expo notification calls are replaced by an effect log of cancel and schedule records. The Android channel setup (`src/utils/notifications.ts:72-79`), and permissions are not modelled. Titles and bodies are built as the source builds them; their text is stated but no property of it is proved.
- FileSystem, Sharing and DocumentPicker in `app/settings.tsx`. Writing and reading the files is outside the model.
- `Papa.unparse`: CSV quoting and text are not modelled, only the row list.
- `uuidv4`: fresh ids are parameters.
- `toISOString`, `toLocaleDateString`, `toLocaleTimeString`, `new Date(string)` and `new Date()` depend on locale, time zone and clock. Dates are day numbers and "now" is a parameter. `localeCompare` is taken as code-unit order.
- `Math.round` on floating-point quotients is integer round-half-up; float behaviour at exact .5 ties is not modelled.
- `toLowerCase`/`toUpperCase` map ASCII letters only. `trim` removes the full ECMAScript white-space and line-terminator set.
- Strings.ToNumber: signs, decimals, exponents and hexadecimal text are read as NaN. Only blank text and digit strings are modelled as `Number` reads them.
- Notifications.DayOfWeekToIndex: keys inherited from `Object.prototype` (such as "constructor") are not modelled as lookups.
- Notifications.GetNextOccurrence: returns the day offset. Adding it with `setDate` and the month normalisation that follows are not modelled.
- Notifications.EntryReminder: the body is stated as the text the source builds, with no further property of it; the try/catch around scheduling failures is not modelled.
- CalendarUtils.DayData: the record's `dateString` (from `toISOString`, in UTC) and `dayOfMonth` fields are not modelled.
- CalendarScreen.AddDot: a mark whose dots list is undefined is treated as an empty list.
- TimetableScreen.FormatThenParse: the 12-hour text is "h:mm AM" with an ASCII space. Locales that print U+202F or other forms are not modelled.
- EditSchedule.HandleDayChange: requires an index inside the schedule. The source would write past the end.
- EditSchedule.ScheduleEditor.OpenTimePicker: requires an index inside the schedule, as the list rows pass.
- EditSchedule.ScheduleEditor.HandleTimeChange: times are whole minutes of the day. The seconds of the picked Date, and the date part of the comparison, are not modelled.
- SettingsScreen.ReminderPatch: indices of 6 or more are treated as "no change"; the action sheet never reports them.
- SettingsScreen.RestoreFromFile: `JSON.parse` is abstracted to the kinds of the parsed `courses` and `settings` values. Elements are not checked, as in the source.
- DataStore.ApplySettings: a `Partial<AppSettings>` whose field is explicitly `undefined` is treated as an absent field.
- DataStore.Store.LoadData and DataStore.Store.RestoreAllData: the try/catch logging paths are not modelled.
- The `assignments` screen (`app/(tabs)/notes-assign.tsx`), course detail and edit screens, `app/_layout.tsx` and the component files other than the two session modals and the tab bar are not part of this model.
