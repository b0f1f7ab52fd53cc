# StudBud's study profile and suggestion pipeline, in Dafny

StudBud is a study planner. A student keeps a list of tasks, each with a title, a due date, a priority (High, Medium, Low), a number of hours and a completion flag. Completing tasks earns points and badges, and logs study hours against the day. The days in a row with activity form a streak. Points buy colour themes. A backend stores one profile document per user and answers three kinds of suggestion request:

- a canned study tip;
- a progress report with a canned motivational message;
- a study plan, taken from an external generator or built locally.

A plan that was produced without a custom prompt then goes through a patch pass. The pass corrects the streak line and the hours line against the real figures and adds the closing sentence and a study tip where they are missing.

This project models that core and proves what it promises. The modules:

| module | file | models |
|---|---|---|
| `Text` | text.dfy | the JavaScript string and number built-ins the core relies on: `String(n)`, `padStart`, `parseInt`, `parseFloat`, `indexOf`, `replace` with a literal pattern, `split`, `trim`, `toLowerCase` and the last-comma rewrite |
| `Dates` | dates.dfy | calendar dates, day numbers from 1 January 1970, and the DD-MM-YYYY and YYYY-MM-DD renderings |
| `Tasks` | tasks.dfy | the task record, priority points, counting and filtering, live (not deleted) tasks, `tasks.find` by id |
| `StudyLog` | study_log.dfy | the study-hours log (one entry per DD-MM-YYYY date): adding hours, deducting them with the clamp at 0, and dropping empty entries |
| `Handlers` | handlers.dfy | the profile as a value, and every handler of the main layout as a function on it: streak update, load reconciliation, logging and deducting hours, add, delete, toggle, update, Streak Star, completed-count resync and themes |
| `Layout` | layout.dfy | the layout component's state as a class, `StudyProfile`, whose methods are the handlers; each method is proved equal to the corresponding `Handlers` function |
| `Coach` | coach.dfy | the client's handling of the study-tip reply and of the progress-report reply |
| `Suggest` | suggest.dfy | the suggestion endpoint: mode detection, the canned pools, the local plan, the patch pass, and the suggestion cache as a class |
| `Server` | server.dfy | the profile store: save validation, the upsert a save performs, the default profile, and the store as a class |
| `TaskForm` | task_form.dfy | the add form and the edit form: required fields, hours parsing, date validation, year correction and the date-format round trip |
| `TaskManager` | task_manager.dfy | the task list's filter and its sort, as a stable insertion sort |
| `Snapshot` | snapshot.dfy | the productivity card: overdue and pending-high counts, per-day rows, the most productive days and the three insight sentences |
| `Rewards` | rewards.dfy | the badge cards and the theme shop |
| `StreakCard` | streak_card.dfy | the seven-cell streak window |
| `CompletionRate` | completion_rate.dfy | the rounded completion percentage |

Numbers of hours are exact: one hour is 100 hundredths. Dates are triples of year, month and day, with legal ranges. The current day, `Date.now()`, `Math.random()` and the external generator's reply are parameters.

**Behaviour of the source that the model exhibits**

- **Client prompts are never patched.** The client's tip prompt and report prompt carry neither server marker (Layout.jsx:399-422 and 520-553). Both go down the planner path. Because they do carry a prompt, the patch pass never runs on them (`Suggest.PlannerRequest`, `Suggest.PromptedNotPatched`).
- **The streak patch can miss.** The pass tests for "- Habits:" but replaces "- Habits:\n". A text holding "- Habits:" without a newline after it keeps its missing streak line (`Suggest.PatchStreakMissesBareHabits`).
- **"Math" triggers the Low Priority rewrite.** The word anywhere in the text empties the Low Priority section up to the tip heading (server.js:524-529).
- **Report dates do not match.** The server's progress report looks up the hours log and the completion dates with an ISO YYYY-MM-DD date (server.js:393-398). The client stores DD-MM-YYYY. A report built on the server therefore never finds today's entries.
- **A gap keeps the streak at 0 all day.** Reading the stored dates day-first, a load after a gap of more than a day sets the streak to 0 and dates both streak fields today. A task completed later the same day then leaves the streak at 0 (`Handlers.ReturnAfterGapKeepsZero`).
- **Stored streak dates go through `new Date(string)`.** The client stores `lastActiveDate` and `lastStreakUpdate` as DD-MM-YYYY and reads them back with `new Date(...)` (Layout.jsx:77-86 and 178-181). That is not a format the language defines, so the reading is up to the browser; a month-first reading turns "05-10-2026" into 10 May and gives no date at all for a first field above 12. The model reads these dates day-first, the reading the rest of the client uses (see Left out).
- **The default profile dates the streak in ISO form.** A new user's profile stores the server's YYYY-MM-DD date in both streak fields (server.js:151-160), while the client compares them with a DD-MM-YYYY today (Layout.jsx:169). The model's stats hold dates, not strings, so it does not show this mismatch.
- **Early Bird compares strings.** It compares the DD-MM-YYYY completion date with the due date as strings, not as dates (Layout.jsx:766, Badges.jsx:47-49). The card's count and the award rule agree only while no completed task has an empty completion date (`Rewards.EarlyCountsAgree`).
- **The tip fallback never fires.** It would show a long string reply that ended as the failure text, but such a reply is never blank, so it never ends that way (`Coach.RevalidationInert`).
- **An array reply can show the failure text inside the framing.** This happens when the array holds no usable string (`Coach.ListWithoutText`).
- **The report can crash.** A progress reply that is not a string throws at `response.trim()` (Layout.jsx:581), and the report falls back. `Coach.Motivation` is None there.
- **An array studyStats is reported under the wrong error.** It passes the save endpoint's object test and is then refused as "Invalid studyStats format" (`Server.ArrayStatsRejected`).
- **Year correction can make an invalid date.** The edit form moves 29 February of an earlier leap year into a common year, which is not a valid date (`TaskForm.CorrectPastYearFields`).
- **The add form corrects any year.** It corrects any year other than the current one, later years included. The edit form corrects only earlier years (`TaskForm.CorrectYearEffect`, `TaskForm.CorrectPastYearEffect`).

In all of these the model follows the code, except where Left out says otherwise: the reading of the stored streak dates, and the rounding and lower-casing of JavaScript's numbers and strings.

## Model

| member | source | states |
|---|---|---|
| Text.NatToString | frontend/src/components/Layout.jsx:44-48 | `String(n)` of a natural number is a non-empty digit string that starts with '0' exactly for 0 |
| Text.PadTwoValue | frontend/src/components/Layout.jsx:46-47 | `padStart(2, "0")` of a rendered month or day is a digit string with the same value |
| Text.PadLeftShape | frontend/src/components/Layout.jsx:46-47 | padding yields the requested width, ends with the original text and is filled with the pad character before it |
| Text.JsParseInt | backend/server.js:489 | `parseInt` gives a number exactly when digits follow the optional white space and sign |
| Text.ParseIntRendered | backend/server.js:489 | `parseInt` reads a rendered streak figure back as the same number |
| Text.ParseFloatInteger | frontend/src/components/taskmanager/AddTaskForm.jsx:31-35 | `parseFloat` of a whole number gives its value |
| Text.ParseFloatNegative | frontend/src/components/taskmanager/AddTaskForm.jsx:31-35 | a leading '-' makes the number negative, so the forms refuse it, except for "-0", which is not below zero |
| Text.ParseFloatDecimal | frontend/src/components/taskmanager/AddTaskForm.jsx:31-35 | `parseFloat` of a decimal reads the integer part and, at hundredth precision, the fraction |
| Text.ParseFloatText | frontend/src/components/taskmanager/AddTaskForm.jsx:31-35 | text that does not start like a number is NaN |
| Text.ParseFloatRendered | backend/server.js:515 | `parseFloat` reads a rendered number of hours back as that number |
| Text.Find | backend/server.js:476 | `includes`/`indexOf` finds the first occurrence, and finds one exactly when the text holds the pattern |
| Text.FindFrom | backend/server.js:526 | the search from a position returns the first occurrence at or after it, and None only when there is none |
| Text.ReplaceFirst | backend/server.js:477-482 | a literal `replace` changes only the first occurrence and leaves a text without one as it is |
| Text.Split | frontend/src/components/TaskManager.jsx:24 | `split` on one character gives at least one field and no field holds the separator |
| Text.SplitJoin | frontend/src/components/taskmanager/TaskList.jsx:33-37 | splitting undoes joining when no part holds the separator |
| Text.SplitThree | frontend/src/components/TaskManager.jsx:24 | a date of three fields joined by '-' destructures into exactly those three fields |
| Text.TrimStart | frontend/src/components/Layout.jsx:426-427 | the trimmed text is a suffix that starts without white space, and only white space was removed |
| Text.TrimEnd | frontend/src/components/Layout.jsx:426-427 | the trimmed text is a prefix that ends without white space, and only white space was removed |
| Text.Lower | frontend/src/components/Layout.jsx:431 | lower-casing leaves no ASCII capital, turns each capital into its small letter in the same place and keeps every other character, so the length is kept; only ASCII letters are mapped (see Left out) |
| Text.LowerIdempotent | frontend/src/components/Layout.jsx:431 | lower-casing an already lower-cased text changes nothing |
| Text.LastIndexOf | frontend/src/components/analytics/ProductivitySnapshot.jsx:98 | the position found holds the character and no later position does |
| Text.ReplaceLastCommaOfJoin | frontend/src/components/analytics/ProductivitySnapshot.jsx:95-98 | comma-free names joined by ", " read as a list with " and " before the last one |
| Dates.EpochIsDayZero | frontend/src/components/TaskManager.jsx:23 | `new Date(0)`, the date a missing due date sorts as, is day 0 |
| Dates.ReverseFields | frontend/src/components/taskmanager/TaskList.jsx:33-37 | the field reversal (`convertToHTMLDateFormat`, and `formatDateForDisplay` of ProductivitySnapshot.jsx) gives "" exactly for "" |
| Dates.ReverseFieldsOf | frontend/src/components/taskmanager/TaskList.jsx:33-37 | reversing three dash-free fields swaps the outer two, and reversing twice restores the text |
| Dates.ReverseRendered | frontend/src/components/analytics/ProductivitySnapshot.jsx:8-12 | for four-digit years the DD-MM-YYYY and YYYY-MM-DD renderings of a date turn into each other |
| Dates.ParseRenderDmy | frontend/src/components/Layout.jsx:44-48 | a rendered DD-MM-YYYY date reads back as the same date |
| Dates.RenderDmyInjective | frontend/src/components/Layout.jsx:44-48 | distinct dates render differently, so comparing the rendered strings compares dates |
| Dates.RenderDmyShape | frontend/src/components/Layout.jsx:44-48 | a valid date with a four-digit year renders as ten characters with dashes at positions 2 and 5 |
| Dates.DmyKeyOfRender | frontend/src/components/analytics/ProductivitySnapshot.jsx:15-19 | parsing a rendered date yields its own day number |
| Tasks.PriorityPoints | frontend/src/components/Layout.jsx:735-740 | High is worth 30 points, Medium 20 and any other priority 10 |
| Tasks.Count | frontend/src/components/rewards/Badges.jsx:43-49 | a filtered count never exceeds the list length |
| Tasks.CountExtremes | frontend/src/components/rewards/Badges.jsx:43-49 | a count is 0 exactly when no element passes, and the full length exactly when all do |
| Tasks.Filter | frontend/src/components/analytics/ProductivitySnapshot.jsx:21 | the filtered list has as many elements as pass the test, and all of them pass it |
| Tasks.FilterMembers | frontend/src/components/analytics/ProductivitySnapshot.jsx:21 | filtering keeps exactly the elements that pass the test |
| Tasks.LiveIgnoresDeleted | frontend/src/components/analytics/ProductivitySnapshot.jsx:21 | a deleted task, first or last, makes no difference to the live tasks |
| Tasks.FirstWithId | frontend/src/components/Layout.jsx:712 | `tasks.find` by id returns the first task with the id, and nothing exactly when no task carries it |
| StudyLog.FirstWithDate | frontend/src/components/Layout.jsx:334 | the log lookup returns the first entry for the date, and nothing exactly when there is none |
| StudyLog.DropEmpty | frontend/src/components/Layout.jsx:375 | the filtered log holds only positive entries, all taken from the log |
| StudyLog.Clamped | frontend/src/components/Layout.jsx:368 | `Math.max(0, hours - h)` is 0 exactly when the deduction covers the hours, and the difference otherwise |
| StudyLog.AddHoursUnique | frontend/src/components/Layout.jsx:330-347 | logging hours keeps one entry per date |
| StudyLog.AddHoursEntry | frontend/src/components/Layout.jsx:330-347 | after logging, the date's entry holds its old hours plus the new ones (or only the new ones), and other entries are untouched |
| StudyLog.AddHoursTotal | frontend/src/components/Layout.jsx:330-347 | with unique dates the log's total grows by exactly the logged hours |
| StudyLog.DropEmptyPositive | frontend/src/components/Layout.jsx:375 | dropping empty entries from an all-positive log keeps the log |
| StudyLog.DropEmptyUnique | frontend/src/components/Layout.jsx:375 | dropping empty entries keeps dates unique |
| StudyLog.DeductHoursUnique | frontend/src/components/Layout.jsx:362-377 | a deduction keeps dates unique |
| StudyLog.DeductHoursAt | frontend/src/components/Layout.jsx:362-377 | with an entry for the date, a deduction is the clamped set followed by the filter |
| StudyLog.SetDateUnique | frontend/src/components/Layout.jsx:370-374 | setting a date's hours keeps every date where it was |
| StudyLog.DeductMissingDate | frontend/src/components/Layout.jsx:362-377 | a deduction at a date without an entry leaves the log as it is |
| StudyLog.DeductHoursShape | frontend/src/components/Layout.jsx:362-377 | after a deduction every entry is positive and no entry for another date is new |
| StudyLog.DeductHoursEntry | frontend/src/components/Layout.jsx:362-377 | the date's entry drops by the amount, and disappears when the amount covers it |
| StudyLog.SetDateHours | frontend/src/components/Layout.jsx:370-374 | every entry for the date holds the set value afterwards |
| StudyLog.DeductAfterAdd | frontend/src/components/Layout.jsx:324-387 | deducting what was just logged restores the log when dates are unique and entries positive |
| Handlers.UpdateStreak | frontend/src/components/Layout.jsx:75-131 | computes the streak update; its properties are UpdateStreakFrame, UpdateStreakYesterday, UpdateStreakRestart, UpdateStreakStale, UpdateStreakIdempotent and UpdateStreakRange |
| Handlers.Reconcile | frontend/src/components/Layout.jsx:165-207 | computes the load-time streak reconciliation; ReconcileGap, ReconcileIdempotent and ReturnAfterGapKeepsZero state its effect |
| Handlers.LogStudyHours | frontend/src/components/Layout.jsx:324-356 | computes `logStudyHours`; LogStudyHoursRejects, LogStudyHoursAdds and LogStudyHoursUnique state its effect |
| Handlers.DeductStudyHours | frontend/src/components/Layout.jsx:358-387 | computes `deductStudyHours`; DeductStudyHoursTotal, DeductStudyHoursRejects, DeductStudyHoursUnique and RoundTripStats state its effect |
| Handlers.FormatDueDate | frontend/src/components/Layout.jsx:668-672 | stores a due date as DD-MM-YYYY; FormatDueDateIso and FormatDueDateDmy state it for both input shapes |
| Handlers.AddTask | frontend/src/components/Layout.jsx:666-683 | computes `addTask`; AddTaskEffect states every field of the appended task, including the due date converted by FormatDueDate, and that the rest of the profile is unchanged; AddTaskIsoDue states the stored date for an ISO input |
| Handlers.DeleteTask | frontend/src/components/Layout.jsx:685-709 | computes `deleteTask`; DeleteTaskEffect, DeleteSingleTask, UnknownIdNoChange and DeleteConsistent state its effect |
| Handlers.UpdateTask | frontend/src/components/Layout.jsx:792-796 | computes `updateTask`; UpdateTaskEffect and TaskForm.UpdateUnchangedTask state its effect |
| Handlers.AwardBadges | frontend/src/components/Layout.jsx:746-770 | computes the badge check; AwardBadgesRule, AwardBadgesGrow and AwardIgnoresFlag state it |
| Handlers.ToggleTask | frontend/src/components/Layout.jsx:711-790 | computes `toggleTaskCompletion`; ToggleCompletes, ToggleUncompletes, ToggleFrame, ToggleRoundTrip and UnknownIdNoChange state its effect |
| Handlers.CompleteAt | frontend/src/components/Layout.jsx:734-770 | the completing branch of the toggle; ToggleCompletes, ToggleStats and ToggleBadges state it |
| Handlers.UncompleteAt | frontend/src/components/Layout.jsx:771-784 | the un-completing branch of the toggle; ToggleUncompletes and RoundTripTasks state it |
| Handlers.AwardStreakStar | frontend/src/components/Layout.jsx:799-817 | computes the Streak Star award; StreakStarOnce states it |
| Handlers.SyncCompleted | frontend/src/components/Layout.jsx:259-266 | computes the completed-count resync; SyncCompletedEffect states it |
| Handlers.NextTheme | frontend/src/components/Layout.jsx:51-58 | computes the next unlocked theme; NextThemeCycles and NextThemeSingle state it |
| Handlers.ChangeTheme | frontend/src/components/Layout.jsx:51-63 | makes the next unlocked theme (NextThemeCycles) current and keeps the theme for an empty list (see Left out); Layout.StudyProfile.ChangeTheme is proved to reach it |
| Handlers.UnlockTheme | frontend/src/components/Layout.jsx:69-73 | computes `unlockTheme`; UnlockThemeEffect states it |
| Handlers.FlipAll | frontend/src/components/Layout.jsx:720-729 | the toggle's map keeps the length and every id in place |
| Handlers.IndexOf | frontend/src/components/Layout.jsx:55 | `indexOf` gives the first position of the theme, and -1 exactly when it is absent |
| Handlers.UpdateStreakFrame | frontend/src/components/Layout.jsx:75-131 | a streak update always makes today the last active day and changes none of the hours fields |
| Handlers.UpdateStreakYesterday | frontend/src/components/Layout.jsx:90-103 | activity yesterday with a recent streak update grows the streak by one and dates the update today |
| Handlers.UpdateStreakRestart | frontend/src/components/Layout.jsx:104-110 | no earlier activity, or a gap of more than a day, restarts the streak at 1 |
| Handlers.UpdateStreakStale | frontend/src/components/Layout.jsx:113-120 | a streak update more than a day old forces the streak to 1 |
| Handlers.UpdateStreakIdempotent | frontend/src/components/Layout.jsx:75-131 | a second update on the same day changes nothing |
| Handlers.UpdateStreakRange | frontend/src/components/Layout.jsx:75-131 | an update keeps the streak, grows it by one, or sets it to 1 |
| Handlers.ReconcileGap | frontend/src/components/Layout.jsx:165-207 | at load, a gap of more than a day since the last activity resets the streak to 0 and dates both streak fields today |
| Handlers.ReconcileIdempotent | frontend/src/components/Layout.jsx:165-207 | loading twice on one day is the same as loading once |
| Handlers.ReturnAfterGapKeepsZero | frontend/src/components/Layout.jsx:165-207 | after a load that found a gap, a same-day streak update leaves the streak at 0 |
| Handlers.LogStudyHoursRejects | frontend/src/components/Layout.jsx:325-329 | NaN and non-positive amounts are refused with no change |
| Handlers.LogStudyHoursAdds | frontend/src/components/Layout.jsx:324-356 | an accepted amount is added to the total and to today's entry, dates stay unique, the log total grows by the amount and today becomes the last active day |
| Handlers.LogStudyHoursUnique | frontend/src/components/Layout.jsx:324-356 | logging hours, accepted or not, keeps one entry per date |
| Handlers.DeductStudyHoursTotal | frontend/src/components/Layout.jsx:358-387 | a deduction lowers the total by the amount, clamped at 0, even without an entry for the date, and leaves the streak fields alone |
| Handlers.DeductStudyHoursRejects | frontend/src/components/Layout.jsx:359-361 | NaN and non-positive deductions are ignored |
| Handlers.DeductStudyHoursUnique | frontend/src/components/Layout.jsx:358-387 | a deduction keeps one entry per date |
| Handlers.FirstWithIdSameIds | frontend/src/components/Layout.jsx:731 | the task looked up after the map is the one looked up before it, since the map keeps the ids |
| Handlers.UnknownIdNoChange | frontend/src/components/Layout.jsx:711-714 | toggling or deleting an id no task carries changes nothing |
| Handlers.ToggleCompletes | frontend/src/components/Layout.jsx:734-770 | completing a task dates it today, flags it awarded and adds its priority points unless they were already awarded; other tasks are untouched |
| Handlers.ToggleUncompletes | frontend/src/components/Layout.jsx:771-784 | un-completing clears the date and the flag, takes back awarded points, deducts the task's hours at its completion date and keeps the badges |
| Handlers.ToggleFrame | frontend/src/components/Layout.jsx:711-790 | a toggle changes only the tasks, the stats, the points and the badges |
| Handlers.ToggleParts | frontend/src/components/Layout.jsx:720-740 | the new task list and points of a toggle, in terms of the flipped list and the award flag |
| Handlers.ToggleStats | frontend/src/components/Layout.jsx:742-784 | completing logs the task's hours today and updates the streak; un-completing deducts the hours at the old completion date; otherwise the stats stay |
| Handlers.FlipTwice | frontend/src/components/Layout.jsx:720-729 | flipping a task twice, awarding on the way there and withdrawing on the way back, gives the list back |
| Handlers.RoundTripTasks | frontend/src/components/Layout.jsx:711-784 | completing and then un-completing an unawarded, undated task restores the task list and the points |
| Handlers.RoundTripStats | frontend/src/components/Layout.jsx:742-784 | deducting at today's date what completing logged today restores the total and the log |
| Handlers.ToggleRoundTrip | frontend/src/components/Layout.jsx:711-790 | completing and un-completing a task on one day restores the points, the total hours, the log and the task list |
| Handlers.AwardBadgesRule | frontend/src/components/Layout.jsx:746-770 | Priority Master at 5 completed High tasks, Task Titan at 10 completed tasks, Early Bird at 3 early completions, each also kept when already held, and no other badge is added |
| Handlers.AwardIgnoresFlag | frontend/src/components/Layout.jsx:731-746 | setting the award flag of one task does not change which badges are awarded |
| Handlers.AwardBadgesGrow | frontend/src/components/Layout.jsx:746-770 | awarding only appends, and never appends a badge already held |
| Handlers.ToggleBadges | frontend/src/components/Layout.jsx:746-770 | completion awards the badges earned by the flipped list; un-completion keeps the old badges |
| Handlers.ToggleBadgesGrow | frontend/src/components/Layout.jsx:711-790 | a toggle only ever adds badges, without duplicates |
| Handlers.StreakStarOnce | frontend/src/components/Layout.jsx:799-817 | the Streak Star is awarded exactly when the streak reaches 7, with 50 points, only once, and a second pass changes nothing |
| Handlers.DeleteTaskEffect | frontend/src/components/Layout.jsx:685-709 | deleting a completed task deducts its hours at its completion date and takes back its awarded points; every task with the id goes and exactly the others remain |
| Handlers.WithoutSingleId | frontend/src/components/Layout.jsx:708 | removing the only task with an id keeps the others in their order |
| Handlers.DeleteSingleTask | frontend/src/components/Layout.jsx:685-709 | deleting the only task with an id removes exactly that position from the list |
| Handlers.UpdateTaskEffect | frontend/src/components/Layout.jsx:792-796 | an update replaces exactly the tasks carrying the id, and an unknown id changes nothing |
| Handlers.FormatDueDateIso | frontend/src/components/Layout.jsx:668-672 | a YYYY-MM-DD due date from the date input is stored as DD-MM-YYYY |
| Handlers.FormatDueDateDmy | frontend/src/components/Layout.jsx:668-672 | a DD-MM-YYYY due date is stored as it is |
| Handlers.AddTaskEffect | frontend/src/components/Layout.jsx:666-683 | adding appends one task with the timestamp as id; the form's title, priority, completed flag and hours; the due date as FormatDueDate gives it; no completion date, no points awarded and not deleted. The earlier tasks and every other field of the profile (stats, points, badges, themes) are unchanged |
| Handlers.AddTaskIsoDue | frontend/src/components/Layout.jsx:668-681 | a YYYY-MM-DD due date from the form is stored on the added task as DD-MM-YYYY |
| Handlers.SyncCompletedEffect | frontend/src/components/Layout.jsx:259-266 | the completed count becomes the number of completed tasks, no other stats field and no other profile field changes, and resyncing twice is resyncing once |
| Handlers.NextThemeCycles | frontend/src/components/Layout.jsx:51-58 | with two or more themes the next one follows the current one's first occurrence, wrapping round, and is the first theme when the current one is not unlocked |
| Handlers.NextThemeSingle | frontend/src/components/Layout.jsx:51-53 | with a single unlocked theme the next theme is always Light Mode |
| Handlers.UnlockThemeEffect | frontend/src/components/Layout.jsx:69-73 | unlocking adds the theme at most once, and unlocking again changes nothing |
| Handlers.ToggleConsistent | frontend/src/components/Layout.jsx:711-790 | a toggle keeps log dates, badges and unlocked themes free of duplicates |
| Handlers.DeleteConsistent | frontend/src/components/Layout.jsx:685-709 | a delete keeps log dates, badges and unlocked themes free of duplicates |
| Handlers.OtherHandlersConsistent | frontend/src/components/Layout.jsx:666-817 | add, update, the Streak Star award, the resync and theme unlocks keep log dates, badges and unlocked themes free of duplicates |
| Layout.CheckBadges | frontend/src/components/Layout.jsx:746-770 | the three badge checks in a row compute the award rule over the updated tasks |
| Layout.StudyProfile.constructor | frontend/src/components/Layout.jsx:18-33 | the initial state: no tasks, zero stats, no points, no badges, Light Mode alone unlocked and current |
| Layout.StudyProfile.Load | frontend/src/components/Layout.jsx:133-207 | the fetched profile is taken over and its streak reconciled against today |
| Layout.StudyProfile.UpdateStreak | frontend/src/components/Layout.jsx:75-131 | the stats become the streak update of the old stats; nothing else changes |
| Layout.StudyProfile.LogStudyHours | frontend/src/components/Layout.jsx:324-356 | the stats become the hours-logging function of the old stats; nothing else changes |
| Layout.StudyProfile.DeductStudyHours | frontend/src/components/Layout.jsx:358-387 | the stats become the deduction function of the old stats; nothing else changes |
| Layout.StudyProfile.AddTask | frontend/src/components/Layout.jsx:666-683 | the new state is the add handler of the old one |
| Layout.StudyProfile.DeleteTask | frontend/src/components/Layout.jsx:685-709 | the new state is the delete handler of the old one |
| Layout.StudyProfile.ToggleTaskComplete | frontend/src/components/Layout.jsx:711-790 | the new state is the toggle handler of the old one |
| Layout.StudyProfile.CompleteTask | frontend/src/components/Layout.jsx:734-770 | the completing branch, with hours and streak routed through the state-updating handlers, reaches the completion state |
| Layout.StudyProfile.UncompleteTask | frontend/src/components/Layout.jsx:771-784 | the un-completing branch reaches the un-completion state |
| Layout.StudyProfile.UpdateTask | frontend/src/components/Layout.jsx:792-796 | the new state is the update handler of the old one |
| Layout.StudyProfile.AwardStreakStar | frontend/src/components/Layout.jsx:799-817 | the new state is the Streak Star award of the old one |
| Layout.StudyProfile.SyncCompleted | frontend/src/components/Layout.jsx:259-266 | the new state is the completed-count resync of the old one |
| Layout.StudyProfile.ChangeTheme | frontend/src/components/Layout.jsx:60-63 | the current theme becomes the next unlocked theme |
| Layout.StudyProfile.UpdatePoints | frontend/src/components/Layout.jsx:65-67 | the points take the new value; nothing else changes |
| Layout.StudyProfile.UnlockTheme | frontend/src/components/Layout.jsx:69-73 | the unlocked themes gain the theme once; nothing else changes |
| Layout.StudyProfile.RedeemTheme | frontend/src/components/rewards/RedeemThemes.jsx:51-77 | the points and unlock callbacks together reach the shop's redemption result |
| Coach.BaseTip | frontend/src/components/Layout.jsx:425-443 | the tip after trimming, numbering and framing; BaseTipCases, PlainFramed, NumberedTip and ListWithoutText state it |
| Coach.StudyTip | frontend/src/components/Layout.jsx:425-466 | the tip shown; RevalidationInert and StudyTipNeutral state it |
| Coach.FiguresOf | frontend/src/components/Layout.jsx:483-499 | the report's figures for the day; FiguresPoints, SumPoints and SumPointsByPriority state them |
| Coach.FirstMessage | frontend/src/components/Layout.jsx:557-576 | the cleaned first line of a string reply; FirstLineIsFirst states which line it takes, and QuotedLine that a quoted line comes through without its quotes |
| Coach.StripNumbering | frontend/src/components/Layout.jsx:429 | removing the numbering leaves a suffix of the text |
| Coach.Unquote | frontend/src/components/Layout.jsx:575 | removing the quotes never lengthens the text |
| Coach.FirstText | frontend/src/components/Layout.jsx:436 | the chosen item is one of the items and a non-blank string, and nothing is chosen only when every item is blank or not a string; FirstTextIsFirst states that it is the first usable one |
| Coach.FirstTextIsFirst | frontend/src/components/Layout.jsx:436 | the item taken is the first usable one: a non-blank string with only blanks or non-strings before it is the one `find` returns |
| Coach.StripNumberingOf | frontend/src/components/Layout.jsx:429 | a numbered line "k. tip" loses exactly its number, its '.' and the space |
| Coach.StripNumberingDigits | frontend/src/components/Layout.jsx:576 | any run of digits, ". " and text loses exactly the numbering |
| Coach.StripNumberingPlain | frontend/src/components/Layout.jsx:429 | text that does not start with a digit is left alone |
| Coach.UnquoteOf | frontend/src/components/Layout.jsx:575 | a quoted one-line text loses exactly its quotes |
| Coach.FramedHoldsMark | frontend/src/components/Layout.jsx:431-433 | a framed tip holds the phrase the framing test looks for, so it is never framed twice |
| Coach.FailedLacksMark | frontend/src/components/Layout.jsx:425 | the failure text never holds the phrase |
| Coach.BaseTipCases | frontend/src/components/Layout.jsx:425-443 | the failure text shows exactly for a blank reply; any other reply gives a framed tip |
| Coach.RevalidationInert | frontend/src/components/Layout.jsx:446-454 | the extra validation never changes the tip |
| Coach.ListWithoutText | frontend/src/components/Layout.jsx:434-442 | an array without a usable string shows the failure text inside the framing |
| Coach.PlainFramed | frontend/src/components/Layout.jsx:426-433 | a trimmed, unnumbered text without the phrase is framed as it is |
| Coach.NumberedTip | frontend/src/components/Layout.jsx:426-433 | a numbered string reply "k. tip" shows as the framed tip without its number |
| Coach.StudyTipNeutral | frontend/src/components/Layout.jsx:456-466 | with field-neutral fallback text, the tip shown never names a field |
| Coach.SumPoints | frontend/src/components/Layout.jsx:497-499 | today's points lie between 10 and 30 per completed task |
| Coach.SumPointsByPriority | frontend/src/components/Layout.jsx:497-499 | today's points are 30 per High, 20 per Medium and 10 per other task completed today |
| Coach.FiguresPoints | frontend/src/components/Layout.jsx:483-499 | the report's points agree with its High and Medium counts, and the three counts never exceed the tasks completed today |
| Coach.LevelOf | frontend/src/components/Layout.jsx:585-594 | Advanced above streak 14, 50 hours or 30 tasks; Beginner at or below streak 5, 20 hours and 10 tasks |
| Coach.LevelMonotone | frontend/src/components/Layout.jsx:585-594 | more streak, hours or completed tasks never lower the level |
| Coach.IntermediateBand | frontend/src/components/Layout.jsx:585-594 | Intermediate holds exactly between the two sets of thresholds |
| Coach.FirstLine | frontend/src/components/Layout.jsx:559-565 | the line taken is not blank, and none is taken only when every line is blank |
| Coach.FirstLineIsFirst | frontend/src/components/Layout.jsx:559-565 | the line taken is the first non-blank one: a non-blank line with only blank lines before it is the one taken |
| Coach.Motivation | frontend/src/components/Layout.jsx:557-632 | a motivational line is produced exactly for a string reply; any other reply throws |
| Coach.FilteredRule | frontend/src/components/Layout.jsx:616-632 | after the two filters no field word is left, and the heading phrase only in the text meant for it |
| Coach.MotivationFiltered | frontend/src/components/Layout.jsx:557-632 | with valid fallback texts the line never repeats the report's heading phrase and never names a field |
| Coach.HeadingGivesLevelMessage | frontend/src/components/Layout.jsx:578-614 | a reply that is only a heading is replaced by the level's message, and by the starting message when nothing happened today |
| Coach.QuotedLine | frontend/src/components/Layout.jsx:559-576 | a quoted first line comes through without its quotes |
| Suggest.ReportText | backend/server.js:416 | the progress report's template; ReportRequestGivesReport states that a report request gets it, and TallySum that its figures add up |
| Suggest.FallbackPlan | backend/server.js:596-661 | the local plan; FallbackListsEveryTask, FallbackAppendHigh, FallbackIgnoresOtherPriorities, FallbackHasClosing and GenerateFallbackSuggestion state it |
| Suggest.EnsureClosing | backend/server.js:465-469 | step 1 of the patch pass; EnsureClosingRule states it |
| Suggest.PatchStreak | backend/server.js:471-498 | step 2, the streak line; PatchStreakRewrites, PatchStreakKeepsCorrectLine, PatchStreakInserts, PatchStreakAppends and PatchStreakMissesBareHabits state it |
| Suggest.PatchHours | backend/server.js:500-522 | step 3, the hours line; PatchHoursRewrites, PatchHoursReplaces and PatchHoursKeepsCorrectLine state it |
| Suggest.ReplaceLowSection | backend/server.js:524-529 | step 4, the Low Priority rewrite; LowSectionLeftmost states it |
| Suggest.InsertTip | backend/server.js:531-545 | step 5, the tip insertion; InsertTipRule states it |
| Suggest.Patched | backend/server.js:459-546 | the whole patch pass; PostProcess and PatchedNonEmpty state it |
| Suggest.Compose | backend/server.js:358-552 | the reply to an uncached request; TipRequestGivesPoolTip, ReportRequestGivesReport, PlannerRequest, PromptedNotPatched and ComposeNonEmpty state it |
| Suggest.HoursOn | backend/server.js:394-395 | today's hours are those of the first log entry for today, or 0 without one |
| Suggest.ModeOf | backend/server.js:370-374 | the tip marker selects the tip path, failing that the report marker selects the report, and no prompt means the planner |
| Suggest.Pick | backend/server.js:385 | a random pick from a non-empty pool is a member of it |
| Suggest.AppendLines | backend/server.js:626-628 | the loop appends one line per task, in order |
| Suggest.AppendSection | backend/server.js:623-631 | a priority block is its heading, then a line per task or "  - None" |
| Suggest.GenerateFallbackSuggestion | backend/server.js:596-661 | the imperative builder produces the local plan |
| Suggest.MatchAt | backend/server.js:472-474 | a match found at a position starts there and lies inside the text, and a streak match reads digits |
| Suggest.FirstMatch | backend/server.js:472-474 | `match` returns a match at or after the start position |
| Suggest.FirstMatchLeftmost | backend/server.js:472-474 | the match returned is the leftmost one, and none is returned only when no position matches |
| Suggest.FixStreakLine | backend/server.js:471-498 | the streak block of the patch pass computes the streak patch |
| Suggest.FixHoursLine | backend/server.js:500-522 | the hours block of the patch pass computes the hours patch |
| Suggest.PostProcess | backend/server.js:459-546 | the step-by-step patch pass computes the patched text |
| Suggest.SuggestionCache.constructor | backend/server.js:359-364 | the cache starts empty with the given pools |
| Suggest.SuggestionCache.Suggest | backend/server.js:358-552 | a cached suggestion is returned unchanged; otherwise the composed one is returned and stored under the request's key |
| Suggest.TipRequestGivesPoolTip | backend/server.js:383-385 | a prompt with the tip marker is answered with one of the canned tips |
| Suggest.ReportRequestGivesReport | backend/server.js:386-416 | failing that, the report marker gives the progress template with a canned message |
| Suggest.PlannerRequest | backend/server.js:428-459 | any other request gets the generator's trimmed reply when usable, or else the local plan over upcoming tasks, patched exactly when no prompt was sent |
| Suggest.PromptedNotPatched | backend/server.js:458-459 | tip and report requests always carry a prompt, so they are never patched |
| Suggest.TallySum | backend/server.js:396-408 | with only High, Medium and Low tasks, the three counts add up to the tasks completed today |
| Suggest.LinesContain | backend/server.js:626-628 | every listed task has its line in the section |
| Suggest.FallbackIgnoresOtherPriorities | backend/server.js:617-619 | a task of another priority adds nothing to a non-empty plan |
| Suggest.SectionSnoc | backend/server.js:623-631 | a task added to a section gets its line after the others |
| Suggest.FallbackAppendHigh | backend/server.js:617-660 | appending a High task extends the High section alone |
| Suggest.FallbackListsEveryTask | backend/server.js:617-651 | every High, Medium or Low task is listed in the plan |
| Suggest.FallbackHasClosing | backend/server.js:654-658 | every local plan ends with the closing sentence, so the first patch step leaves it alone |
| Suggest.EnsureClosingRule | backend/server.js:465-469 | after the first step the closing sentence is present, and a text that had it is unchanged |
| Suggest.StreakLineRead | backend/server.js:472-474 | the streak line as the plans write it is matched and read with its own number |
| Suggest.StreakNumberRead | backend/server.js:472-474 | digits followed by " day" are read as exactly those digits |
| Suggest.HoursNumberRead | backend/server.js:500-502 | digits with an optional fraction, then " hour", are read as exactly that number |
| Suggest.HoursLineRead | backend/server.js:500-502 | the hours line as the plans write it is matched and read as the same number of hours |
| Suggest.SameHoursRendered | backend/server.js:515-516 | a rendered number of hours compares equal to the same number |
| Suggest.PatchStreakKeepsCorrectLine | backend/server.js:488-497 | a text that starts with the correct streak line is left as it is |
| Suggest.PatchHoursKeepsCorrectLine | backend/server.js:514-521 | a text that starts with the correct hours line is left as it is |
| Suggest.PatchStreakRewrites | backend/server.js:488-497 | with a streak line present, the patched text reads the actual streak where the first one was |
| Suggest.PatchHoursRewrites | backend/server.js:514-521 | with an hours line present, the patched text reads the actual hours where the first one was |
| Suggest.PatchHoursReplaces | backend/server.js:514-521 | a wrong hours line is replaced by the correct one, the text around it kept |
| Suggest.PatchStreakInserts | backend/server.js:475-482 | without a streak line, one is inserted under the first "- Habits:\n" |
| Suggest.PatchStreakAppends | backend/server.js:483-487 | without a streak line or any "- Habits:", a full habits block is appended |
| Suggest.PatchStreakMissesBareHabits | backend/server.js:475-482 | with "- Habits:" present but never followed by a newline, a missing streak line stays missing |
| Suggest.LowSectionLeftmost | backend/server.js:524-529 | the lazy match starts at the first "Low Priority:": a later one cannot find a tip heading the first one missed |
| Suggest.InsertTipRule | backend/server.js:531-545 | with nothing upcoming and no tip heading the tip goes in before "- Habits:"; otherwise nothing changes |
| Suggest.PatchedNonEmpty | backend/server.js:459-546 | the patch pass always yields a non-empty text |
| Suggest.ComposeNonEmpty | backend/server.js:361-364 | no request composes the empty text, which the cache test would treat as absent |
| Suggest.StoredIsServed | backend/server.js:548-552 | once stored, a suggestion is what the next identical request gets |
| Server.ErrorMessage | backend/server.js:205-239 | the message of each 400 response; ErrorMessageInjective states they differ |
| Server.Acceptable | backend/server.js:200-240 | everything a save demands of its body; ValidateSave proves it equal to passing every check |
| Server.Updated | backend/server.js:242-257 | the upsert a save applies; UpdatedFields, UpdatedKeeps, UpdatedIdempotent and ResaveUnchanged state it |
| Server.DefaultDoc | backend/server.js:150-178 | the profile created for a new user; DefaultAccepted and DefaultResaveUnchanged state it |
| Server.ValidateSave | backend/server.js:200-240 | a body passes exactly when it meets every check; the first failed check is the one reported; a body refused only for its current theme passes with Light Mode |
| Server.MergedStats | backend/server.js:242-257 | the stored stats keep every sent field and always hold a truthy hours log |
| Server.ThemeValues | backend/server.js:150-178 | the default theme list holds the catalogue's names, in order |
| Server.UserStore.constructor | backend/server.js:146-185 | the store starts with no documents |
| Server.UserStore.Fetch | backend/server.js:146-185 | a stored document is returned unchanged; an unknown user gets the default profile, which is stored first |
| Server.UserStore.Save | backend/server.js:188-262 | a refused body changes nothing and names the error; an accepted one upserts the update into the user's document |
| Server.ErrorMessageInjective | backend/server.js:205-239 | each rejection of a save has its own message |
| Server.ArrayStatsRejected | backend/server.js:211-221 | an array as studyStats passes the object test and is refused as a bad format |
| Server.UpdatedFields | backend/server.js:242-257 | a save writes the six plain fields as sent and the merged stats |
| Server.UpdatedKeeps | backend/server.js:242-257 | a save adds the seven fields and keeps every other stored field, such as the cached suggestions |
| Server.MergedStatsLog | backend/server.js:242-257 | a truthy log is stored as sent; a missing or falsy one becomes [] |
| Server.UpdatedIdempotent | backend/server.js:242-257 | sending the same body twice stores what sending it once stores |
| Server.ResaveUnchanged | backend/server.js:242-257 | saving a stored document back, when its stats already hold a truthy log, leaves it exactly as it was |
| Server.DefaultAccepted | backend/server.js:150-178 | the default profile sent back as fetched passes every save check |
| Server.DefaultResaveUnchanged | backend/server.js:150-178 | saving the fetched default profile back leaves it exactly as it was |
| TaskForm.IsValidIsoDate | frontend/src/components/taskmanager/TaskList.jsx:39-56 | `isValidDate`; IsoRenderAccepted, IsoRejectsShape, IsoLeapDay and IsoRejectsOutOfRange state it over all inputs, and IsoRejectsMonth13, IsoRejectsFebruary30, IsoRejectsFebruary29 and IsoAcceptsLeapDay are examples |
| TaskForm.CorrectPastYear | frontend/src/components/taskmanager/TaskList.jsx:114-125 | the edit form's year correction; CorrectPastYearEffect, CorrectPastYearFields and CorrectPastYearIdempotent state it |
| TaskForm.CorrectYear | frontend/src/components/taskmanager/AddTaskForm.jsx:47-55 | the add form's year correction; CorrectYearEffect and CorrectYearIdempotent state it |
| TaskForm.SaveEdit | frontend/src/components/taskmanager/TaskList.jsx:69-107 | `handleSaveEdit`; SaveEditRule, UntouchedDateNotChecked, SaveEditZeroHours, SaveEditNegativeHours, SaveEditTextHours and EditRoundTrip state it |
| TaskForm.SubmitAdd | frontend/src/components/taskmanager/AddTaskForm.jsx:24-45 | `handleAddTask`; SubmitAddRule, SubmitAddZeroHours and SubmitAddRenderedHours state it |
| TaskForm.StartEdit | frontend/src/components/taskmanager/TaskList.jsx:58-67 | a completed task is not opened for editing; otherwise the draft keeps the task's id and completion |
| TaskForm.ConvertRoundTrip | frontend/src/components/taskmanager/TaskList.jsx:33-37 | opening a DD-MM-YYYY date gives YYYY-MM-DD, and saving converts it back to the same string |
| TaskForm.IsoRenderAccepted | frontend/src/components/taskmanager/TaskList.jsx:39-56 | every real date up to year 9999 renders as a string `isValidDate` accepts and reads back |
| TaskForm.IsoLeapDay | frontend/src/components/taskmanager/TaskList.jsx:39-56 | any YYYY-MM-DD string naming 29 February is accepted exactly when its year is a leap year |
| TaskForm.IsoRejectsOutOfRange | frontend/src/components/taskmanager/TaskList.jsx:39-56 | any YYYY-MM-DD string with month 0 or above 12, or day 0 or past the end of its month, is rejected |
| TaskForm.IsoRejectsMonth13 | frontend/src/components/taskmanager/TaskList.jsx:39-56 | month 13 is rejected |
| TaskForm.IsoRejectsFebruary30 | frontend/src/components/taskmanager/TaskList.jsx:39-56 | 30 February is rejected |
| TaskForm.IsoRejectsFebruary29 | frontend/src/components/taskmanager/TaskList.jsx:39-56 | 29 February is rejected outside a leap year |
| TaskForm.IsoAcceptsLeapDay | frontend/src/components/taskmanager/TaskList.jsx:39-56 | 29 February of a leap year is accepted |
| TaskForm.IsoRejectsShape | frontend/src/components/taskmanager/TaskList.jsx:40-43 | one-digit months and DD-MM-YYYY strings fail the shape test |
| TaskForm.CorrectPastYearEffect | frontend/src/components/taskmanager/TaskList.jsx:114-125 | a valid date before the current year gets the current year with the same month and day; later years and invalid strings are left alone |
| TaskForm.CorrectPastYearFields | frontend/src/components/taskmanager/TaskList.jsx:114-125 | the corrected string has the shape, the current year and the same month and day, and is valid unless it is 29 February in a common year |
| TaskForm.CorrectPastYearIdempotent | frontend/src/components/taskmanager/TaskList.jsx:114-125 | correcting twice is correcting once |
| TaskForm.CorrectYearEffect | frontend/src/components/taskmanager/AddTaskForm.jsx:47-55 | the add form replaces any year other than the current one, earlier or later, keeping month and day |
| TaskForm.CorrectYearIdempotent | frontend/src/components/taskmanager/AddTaskForm.jsx:47-55 | after the correction the year reads as the current one, so correcting again changes nothing |
| TaskForm.CompletedNotEditable | frontend/src/components/taskmanager/TaskList.jsx:58-62 | a completed task cannot be opened, so no save of it follows |
| TaskForm.SaveEditRule | frontend/src/components/taskmanager/TaskList.jsx:69-107 | saving succeeds exactly when the touched-date check, the required fields and the hours check pass; the saved task has its date turned back into DD-MM-YYYY and numeric hours; refusals name the first failed check |
| TaskForm.UntouchedDateNotChecked | frontend/src/components/taskmanager/TaskList.jsx:72-78 | until the date field is touched, any non-empty date string passes |
| TaskForm.SaveEditZeroHours | frontend/src/components/taskmanager/TaskList.jsx:80-95 | typed zero hours are accepted and saved as 0 |
| TaskForm.SaveEditNegativeHours | frontend/src/components/taskmanager/TaskList.jsx:91-95 | a negative number of hours is refused |
| TaskForm.SaveEditTextHours | frontend/src/components/taskmanager/TaskList.jsx:91-95 | hours that do not start like a number are refused |
| TaskForm.EditRoundTrip | frontend/src/components/taskmanager/TaskList.jsx:58-107 | opening an incomplete DD-MM-YYYY task and saving it untouched yields exactly that task |
| TaskForm.UpdateUnchangedTask | frontend/src/components/Layout.jsx:792-796 | writing back a task equal to every task carrying its id leaves the profile as it is |
| TaskForm.SubmitAddRule | frontend/src/components/taskmanager/AddTaskForm.jsx:24-45 | adding succeeds exactly when the three fields are non-empty and the hours are a number of at least 0; the task passed on carries the form's fields, and the form returns to its defaults |
| TaskForm.SubmitAddZeroHours | frontend/src/components/taskmanager/AddTaskForm.jsx:24-45 | "0" hours is not an empty field: the task is added with zero hours |
| TaskForm.SubmitAddRenderedHours | frontend/src/components/taskmanager/AddTaskForm.jsx:31-36 | hours written as a rendered number are passed on as that number |
| TaskManager.DueKey | frontend/src/components/TaskManager.jsx:22-26 | `parseDate` as a day number; DueKeys states it for an empty and a rendered date, and an unreadable date is admitted under Left out |
| TaskManager.FilterTasks | frontend/src/components/TaskManager.jsx:28-33 | the completion filter; FilterTasksRule states its three cases |
| TaskManager.SortBy | frontend/src/components/TaskManager.jsx:34-45 | the sort keeps the length; SortByCorrect and SortByStable prove it an ordered, stable permutation |
| TaskManager.SortedAndFiltered | frontend/src/components/TaskManager.jsx:28-45 | the list shown; ShownIsSortedPermutation, DueDateOrder, PriorityOrder, TiesKeepOrder and UnknownSortKeepsOrder state it |
| TaskManager.PriorityValue | frontend/src/components/TaskManager.jsx:19 | High ranks 3, Medium 2 and Low 1 |
| TaskManager.InsertPermutes | frontend/src/components/TaskManager.jsx:34-45 | insertion adds exactly the new element |
| TaskManager.InsertSorted | frontend/src/components/TaskManager.jsx:34-45 | insertion into an ordered list keeps it ordered |
| TaskManager.InsertStable | frontend/src/components/TaskManager.jsx:34-45 | insertion keeps the order among equal keys, the new element last |
| TaskManager.SortByCorrect | frontend/src/components/TaskManager.jsx:34-45 | the sort returns an ordered permutation of its input |
| TaskManager.SortByStable | frontend/src/components/TaskManager.jsx:34-45 | the sort is stable: elements with one key keep their input order |
| TaskManager.SortByConstantKey | frontend/src/components/TaskManager.jsx:44 | with one key for every element the order is the input order |
| TaskManager.FilterTasksRule | frontend/src/components/TaskManager.jsx:28-33 | "completed" keeps exactly the completed tasks, "incomplete" exactly the others, and any other filter keeps the list |
| TaskManager.ShownIsSortedPermutation | frontend/src/components/TaskManager.jsx:28-45 | the list shown is a permutation of the filtered tasks, ordered on the sort key |
| TaskManager.DueDateOrder | frontend/src/components/TaskManager.jsx:35-38 | due dates ascend or descend as day numbers |
| TaskManager.PriorityOrder | frontend/src/components/TaskManager.jsx:39-42 | priorities ascend or descend by rank |
| TaskManager.TiesKeepOrder | frontend/src/components/TaskManager.jsx:34-45 | tasks with equal keys stay in their filtered order |
| TaskManager.UnknownSortKeepsOrder | frontend/src/components/TaskManager.jsx:44 | an unknown sort order leaves the filtered list as it is |
| TaskManager.DueKeys | frontend/src/components/TaskManager.jsx:22-26 | a missing due date sorts as 1 January 1970 and a rendered date as its own day |
| Snapshot.IsOverdue | frontend/src/components/analytics/ProductivitySnapshot.jsx:34-36 | the overdue test; OverdueRule, OverdueRendered and UnreadableDueNotOverdue state it |
| Snapshot.OverdueCount | frontend/src/components/analytics/ProductivitySnapshot.jsx:34-36 | the overdue count over live tasks; DeletedIgnored states that deleted tasks do not count |
| Snapshot.PendingHighCount | frontend/src/components/analytics/ProductivitySnapshot.jsx:37-39 | the pending high-priority count; PendingHighCountRule and DeletedIgnored state it |
| Snapshot.DayStatOf | frontend/src/components/analytics/ProductivitySnapshot.jsx:42-67 | a day's row; DayStatRule and DayStatAddCompleted state it |
| Snapshot.MostProductive | frontend/src/components/analytics/ProductivitySnapshot.jsx:69-84 | the chosen days are never empty; MostProductiveRule states which they are |
| Snapshot.ProductiveInsight | frontend/src/components/analytics/ProductivitySnapshot.jsx:86-109 | the productivity sentence; ProductiveInsightRule and PhraseIsAndList state it |
| Snapshot.OverdueInsight | frontend/src/components/analytics/ProductivitySnapshot.jsx:111-116 | the overdue sentence; OverdueInsightText and OverdueInsightInjective state it |
| Snapshot.PriorityInsight | frontend/src/components/analytics/ProductivitySnapshot.jsx:117-122 | the high-priority sentence; PriorityInsightText and PriorityInsightInjective state it |
| Snapshot.WeekdayIndex | frontend/src/components/analytics/ProductivitySnapshot.jsx:56-60 | the weekday index lies between 0 (Sunday) and 6 |
| Snapshot.MaxCountAt | frontend/src/components/analytics/ProductivitySnapshot.jsx:70 | the position found holds the largest count |
| Snapshot.MinHoursAt | frontend/src/components/analytics/ProductivitySnapshot.jsx:80 | the position found holds the fewest hours |
| Snapshot.TodayKeyIs | frontend/src/components/analytics/ProductivitySnapshot.jsx:24-32 | today, converted to DD-MM-YYYY and parsed, reads back as its own day number |
| Snapshot.OverdueRule | frontend/src/components/analytics/ProductivitySnapshot.jsx:34-36 | a task is overdue exactly when it is incomplete, has a due date, and that date reads as a day before today |
| Snapshot.OverdueRendered | frontend/src/components/analytics/ProductivitySnapshot.jsx:34-36 | for a due date the app wrote, overdue compares the two dates' day numbers |
| Snapshot.UnreadableDueNotOverdue | frontend/src/components/analytics/ProductivitySnapshot.jsx:34-36 | a due date that does not read as a date is never overdue |
| Snapshot.DeletedIgnored | frontend/src/components/analytics/ProductivitySnapshot.jsx:21 | a deleted task changes neither count nor any day's row |
| Snapshot.PendingHighCountRule | frontend/src/components/analytics/ProductivitySnapshot.jsx:37-39 | the pending high-priority count is 0 exactly when no live task is incomplete and High, and each such live task added raises it by one; anything else leaves it |
| Snapshot.DayStatRule | frontend/src/components/analytics/ProductivitySnapshot.jsx:42-67 | a day's row carries its ISO date and weekday, and counts and sums the hours of exactly the live tasks completed on that day's DD-MM-YYYY date |
| Snapshot.DayStatAddCompleted | frontend/src/components/analytics/ProductivitySnapshot.jsx:47-54 | one more task completed that day adds one to the count and its hours to the day's hours |
| Snapshot.CompletedAdd | frontend/src/components/analytics/ProductivitySnapshot.jsx:47-54 | the tasks completed on a day, after one more such task, are the old ones followed by it |
| Snapshot.MostProductiveRule | frontend/src/components/analytics/ProductivitySnapshot.jsx:69-84 | the choice is non-empty, every chosen day has the largest count, the chosen days have the fewest hours among those, and every such day is chosen |
| Snapshot.PhraseIsAndList | frontend/src/components/analytics/ProductivitySnapshot.jsx:92-105 | comma-free items, one or several, are phrased as "A, B and C" |
| Snapshot.DayStatsCommaFree | frontend/src/components/analytics/ProductivitySnapshot.jsx:42-67 | the rows of days with four-digit years hold no comma in their names or dates |
| Snapshot.ProductiveInsightRule | frontend/src/components/analytics/ProductivitySnapshot.jsx:86-109 | no completion gives the starting message; otherwise the sentence names the chosen days and dates as lists with the largest count and a matching plural |
| Snapshot.OverdueInsightText | frontend/src/components/analytics/ProductivitySnapshot.jsx:111-116 | the overdue sentence is fixed for none, says "task" for one and "tasks" for more |
| Snapshot.OverdueInsightInjective | frontend/src/components/analytics/ProductivitySnapshot.jsx:111-116 | different overdue counts give different sentences |
| Snapshot.PriorityInsightText | frontend/src/components/analytics/ProductivitySnapshot.jsx:117-122 | the high-priority sentence is fixed for none, says "task" for one and "tasks" for more |
| Snapshot.PriorityInsightInjective | frontend/src/components/analytics/ProductivitySnapshot.jsx:117-122 | different high-priority counts give different sentences |
| Snapshot.EpochWeekday | frontend/src/components/analytics/ProductivitySnapshot.jsx:56-60 | 1 January 1970 is a Thursday |
| Snapshot.WeekdayNext | frontend/src/components/analytics/ProductivitySnapshot.jsx:56-60 | the next day of a month is the next weekday |
| Rewards.Progress | frontend/src/components/rewards/Badges.jsx:52-57 | each badge card's progress figure; GoalsAreThresholds, EarlyBirdMatchesCard and RemainingLineRule relate it to the award rule and the shown line |
| Rewards.CanRedeem | frontend/src/components/rewards/RedeemThemes.jsx:89 | the redeem button test; ButtonEnabledRule states it |
| Rewards.Redeem | frontend/src/components/rewards/RedeemThemes.jsx:51-77 | `handleRedeemTheme`; RedeemRefused and RedeemAccepted state both outcomes |
| Rewards.Remaining | frontend/src/components/rewards/Badges.jsx:70-94 | the figure shown is the goal minus the progress, never below 0, and 0 exactly when the goal is reached |
| Rewards.RemainingLine | frontend/src/components/rewards/Badges.jsx:90-96 | a card has a remaining line exactly when its badge is not held |
| Rewards.RemainingLineRule | frontend/src/components/rewards/Badges.jsx:90-96 | the line reads "Days remaining: " for the Streak Star and "Tasks remaining: " otherwise, with a figure that is "0" exactly when the progress has reached the goal |
| Rewards.GoalsAreThresholds | frontend/src/components/rewards/Badges.jsx:5-57 | the card goals 5, 10 and 7 are the award thresholds of Priority Master, Task Titan and the Streak Star |
| Rewards.EarlyCountsAgree | frontend/src/components/rewards/Badges.jsx:47-49 | the card's Early Bird count equals the award rule's while no completed task has an empty completion date |
| Rewards.EarlyBirdMatchesCard | frontend/src/components/rewards/Badges.jsx:47-49 | with such dates the Early Bird card reaches its goal exactly when the award rule fires |
| Rewards.UnlockableThemesTable | frontend/src/components/rewards/RedeemThemes.jsx:6-39 | the four themes on sale are the catalogue without Light Mode, each at 50 points |
| Rewards.RedeemRefused | frontend/src/components/rewards/RedeemThemes.jsx:52-63 | a redemption the points do not cover changes nothing |
| Rewards.RedeemAccepted | frontend/src/components/rewards/RedeemThemes.jsx:65-67 | an accepted redemption takes exactly the cost, keeps the balance non-negative, unlocks the theme at the end and changes nothing else |
| Rewards.ButtonEnabledRule | frontend/src/components/rewards/RedeemThemes.jsx:88-120 | a shown button is enabled exactly when the points cover the cost |
| StreakCard.RangeEnd | frontend/src/components/dashboard/StudyStreakCard.jsx:8 | the window's end is the smallest multiple of 7 not below the streak |
| StreakCard.RangeStart | frontend/src/components/dashboard/StudyStreakCard.jsx:8-9 | the window starts at 1, 8, 15 and so on, and a positive streak lies within its first seven numbers; with no streak it starts at 1 |
| StreakCard.StreakRange | frontend/src/components/dashboard/StudyStreakCard.jsx:7-10 | the seven cells are consecutive numbers starting at 1, 8, 15 and so on, and a positive streak is one of them |
| StreakCard.ZeroStreakWindow | frontend/src/components/dashboard/StudyStreakCard.jsx:7-10 | with no streak the cells are 1 to 7 |
| StreakCard.ActiveCellsArePrefix | frontend/src/components/dashboard/StudyStreakCard.jsx:24-30 | the active cells are a prefix of the row: at least one for a positive streak, all seven at a multiple of 7, none at 0 |
| CompletionRate.RoundedPercent | frontend/src/components/analytics/TaskCompletionRate.jsx:10-13 | the rate is the whole number nearest to 100c/t, halves rounded up, and at most 100 |
| CompletionRate.Rate | frontend/src/components/analytics/TaskCompletionRate.jsx:6-13 | the percentage shown never exceeds 100 |
| CompletionRate.RoundedPercentUnique | frontend/src/components/analytics/TaskCompletionRate.jsx:10-13 | the rounded rate is the only whole number within half a step of 100c/t |
| CompletionRate.RoundedPercentHalfDown | frontend/src/components/analytics/TaskCompletionRate.jsx:13 | the whole number nearest to 100c/t with halves rounded down, the figure the double product gives at some exact halves |
| CompletionRate.HalvesOnly | frontend/src/components/analytics/TaskCompletionRate.jsx:13 | rounding halves up and halves down agree except at an exact half, where they differ by one |
| CompletionRate.HalfwayExample | frontend/src/components/analytics/TaskCompletionRate.jsx:13 | 23 of 40 is an exact half: 58 rounded up, 57 rounded down |
| CompletionRate.RateExtremes | frontend/src/components/analytics/TaskCompletionRate.jsx:6-13 | all live tasks completed gives 100; none completed, or none at all, gives 0 |
| CompletionRate.RoundedPercentMonotone | frontend/src/components/analytics/TaskCompletionRate.jsx:10-13 | more completed tasks never lower the rate |
| CompletionRate.DeletedIgnored | frontend/src/components/analytics/TaskCompletionRate.jsx:6 | deleted tasks make no difference to the rate |

## Left out

- HTTP, Express and MongoDB plumbing: requests and documents are values, and the collection is a map in `Server.UserStore`. Schema defaults, `runValidators` and the 500 responses are not modelled.
- The suggestion endpoint's input checks (backend/server.js:349-357), which throw for a non-array `tasks` or non-object `studyHabits`. Requests in the model are typed, so those inputs cannot be written. A non-string `customPrompt` is also not representable.
- The cache key (`JSON.stringify` of the request) is an opaque string. The cache lives in the fixed "user123" document; the model keeps it as its own map in `Suggest.SuggestionCache`.
- The external generator (backend/server.js:266-341) is an input: its reply, possibly absent, is a parameter of each request. The rejection of replies under 10 characters is kept. The prompt text `generateDefaultPrompt` builds is not modelled, because it is only sent to that outside call.
- The wording of the canned tips and messages (backend/server.js:116-144) and of the client's fallback texts: they are parameters (`Suggest.Pools`, `Coach.CoachTexts`), constrained only by what the proofs need.
- The assembly of the progress report message with its emoji and figures (Layout.jsx:634), and the catch fallbacks of the tip, the report and the progress endpoint (Layout.jsx:470-472 and 637-661, backend/server.js:417-427). `Coach.Motivation` returns None where the report would fall back.
- The prompts the client builds (Layout.jsx:399-422 and 511-553), except for one fact: they carry neither server marker.
- Clocks and time zones: "today", `Date.now()` and the IST or Asia/Kolkata conversions are parameters. `new Date(string)` is not modelled: the model reads the client's DD-MM-YYYY strings day-first wherever the source hands them to the browser's date parser, and the lines below name each member this affects.
- The `new Date(...) >= new Date(todayStr)` upcoming-task test (backend/server.js:440-444) is a parameter of the request (`dueFromToday`), because it rests on JavaScript date parsing of arbitrary strings.
- `isValidDate` assumes the browser reads YYYY-MM-DD as a real calendar date. Its time-zone shift is not modelled.
- Floating point. Hours are exact hundredths. `parseFloat` reads at most two fraction digits, truncating the rest. Exponents, "Infinity" and hex are not modelled. `Math.round` is the identity on these values. `parseInt` is exact at any length. Two consequences at logging time: the source tests `parsedHours <= 0` before rounding to hundredths (Layout.jsx:325-330), so "1.239" logs 1.24 where the model reads 1.23, and "0.004" passes the guard, logs a 0-hour entry and updates the streak, where the model reads 0 and refuses it.
- String order is the order of Dafny characters, not UTF-16 code units; they agree on the ASCII dates the app writes.
- Toasts, timers, `localStorage`, the debounced saves and the React render cycle; UI-only state such as the active tab, the loading flags and the shown suggestion.
- `Snapshot.MostProductiveRule` and the other per-day lemmas assume the seven-day list is non-empty, as the source always passes seven days.
- `Handlers.ChangeTheme` with an empty unlocked list: the source falls to `unlocked[(−1+1) % 0]`, which is undefined. The model keeps the current theme.
- `TaskManager.PriorityValue`: an unknown priority ranks 0, where the source reads `undefined` and its comparator yields NaN. The source's order is then unspecified.
- Handlers.UpdateStreak: the streak rules hold for the stored dates read day-first, not for `new Date("DD-MM-YYYY")`, whose reading the language leaves to the browser. A month-first browser gives no date for "13-10-2026", so the source's update keeps the streak, and reads "05-10-2026" to "06-10-2026" as a 31-day gap.
- Handlers.UpdateStreakYesterday: "yesterday" is one day earlier on the day-first reading; a browser reading month-first leaves the streak as it was whenever a day above 12 is involved.
- Handlers.UpdateStreakRestart: the gap of more than one day is measured on the day-first reading, not on the browser's parse of the stored strings.
- Handlers.UpdateStreakStale: the age of the last streak update is measured on the day-first reading, not on the browser's parse.
- Handlers.Reconcile: the load-time gap is measured on the day-first reading; where the browser's `new Date` gives no date, the source takes its last branch and only dates the streak update today.
- Handlers.ReconcileGap: the gap that resets the streak to 0 is the day-first gap, not the browser's.
- Handlers.ReturnAfterGapKeepsZero: rests on the day-first gap at load.
- Layout.StudyProfile.Load: reconciles with the day-first reading (as Handlers.Reconcile). The defaults the source applies to missing fields (`|| 0`, `|| []`, `|| null`, `?? false`, `?? 0`, Layout.jsx:144-163) are not modelled: the typed profile has no missing field. The ISO dates of a new user's default profile cannot be represented either, because the streak fields hold dates, not strings.
- Layout.StudyProfile.UpdateStreak: the new stats are Handlers.UpdateStreak's, on the day-first reading.
- CompletionRate.RoundedPercent: exact arithmetic, halves rounded up. The source multiplies doubles, and at some exact halves the product falls just below .5: 23/40, 29/200 and 57/200 show 57, 14 and 28, where this function gives 58, 15 and 29. At such a half the card's figure is `RoundedPercentHalfDown`. Away from exact halves the two roundings agree (`HalvesOnly`), and the error of a double product is far smaller than the distance to the next half.
- CompletionRate.RoundedPercentUnique: characterises the exact rounding, halves up; at an exact half the source can give the number one below (see RoundedPercent).
- Text.Lower: lower-cases only the ASCII letters A to Z. JavaScript's `toLowerCase` maps all of Unicode, where "İ" becomes two code units and the Kelvin sign becomes "k". The texts it lowers here are matched against ASCII phrases.
- TaskManager.DueKey: a non-empty due date that does not read as a date gets day 0. The source's `parseDate` gives an Invalid Date there, the comparator returns NaN, and the order `sort` then produces is left to the engine.
