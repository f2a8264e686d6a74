# Lifestyle Execution: completion statistics and classifiers

This project models the arithmetic and classification layer of a small
goal-tracking web application. Users set goals, attach recurring tasks
("lead measures") to them, and each scheduled occurrence of a task is a
*task log* with a status (`pending`, `completed`, `missed`) and a due date.
Five pieces of logic are modelled:

- the Dashboard's statistics: the number of goals, today's completed logs,
  the completion percentage of the current Monday-to-Sunday week, the
  current streak of "perfect days" and each goal's overall progress;
- the Weekly Review page: per-goal weekly statistics, the suggestion tier
  and colour chosen from the percentage, the map of saved reviews, the
  submit-button rule and the effect of submitting a review;
- the Tasks page's display rules: the frequency text, the status colour,
  which action a log row offers, and how the new-task form becomes the
  inserted row;
- the navigation bar's active-link rule;
- the two JavaScript runtime operations those rules depend on. These are
  `parseInt` on a form value and `${n}` on an integer.

Modules:

| file | module | contents |
|---|---|---|
| `records.dfy` | `Records` | `Option`, `Log`, `Task`, `Goal`; a nullable JavaScript value is an `Option` |
| `stats.dfy` | `Stats` | completed counts, exact half-up percentage rounding, the week window |
| `js_text.dfy` | `JsText` | `parseInt` and integer-to-text rendering |
| `dashboard.dfy` | `Dashboard` | the Dashboard statistics, including the imperative streak computation |
| `weekly_review.dfy` | `WeeklyReview` | weekly statistics, suggestions, colours, reviews |
| `tasks.dfy` | `Tasks` | frequency text, status colour and action, the new-task row |
| `layout.dfy` | `Layout` | navigation highlighting |

Modelling conventions:

- **Dates.** A date is a day number, with day 0 = 1970-01-01, a Thursday.
  `WeekStart(today)` is the Monday of the week containing `today`, and
  the week is that Monday through the following Sunday. "Today" is a
  parameter.
- **Status.** A status is the raw string the backend sends, so any
  unrecognised value is modelled as well.
- **`Math.round(c / t * 100)`.** This is the exact half-up rounding
  `(200c + t) / (2t)`. It is characterised by `Stats.IsRoundedPercent`.
- **Stateful code.** Code that changes variables step by step is written as
  Dafny methods with loops, and each method is proved equal to a
  specification function. This covers:
  - the grouping and the `for ... break` walk of `calculateCurrentStreak`;
  - the `forEach` accumulation of `calculateWeeklyStats`;
  - the building of the reviews map.

The streak has a specification independent of the loop. A due date is in
the current run when that date and every later due date are perfect, that
is, every log due on them is completed. The streak is the size of that run.
`Dashboard.CalculateCurrentStreak` is proved to return exactly that number.

## Model

| member | source | states |
|---|---|---|
| Records.Option.GetOr | src/pages/Dashboard.jsx:76 | `x ?? d`: the present value, else the default; at `goalsData?.length \|\| 0` this is also `\|\|`, because the only other falsy length is the default 0 itself |
| Records.IsCompleted | src/pages/Dashboard.jsx:108 | `log.status === 'completed'` on the raw status string |
| Records.Completed | src/pages/Tasks.jsx:111-114 | the update sets the status to completed and keeps the due date |
| Stats.CompletedCount | src/pages/Dashboard.jsx:109 | the count of completed logs is at most the list length; it equals the length iff all are completed, and is 0 iff none is |
| Stats.CompletedCountAppend | src/pages/WeeklyReview.jsx:84 | the completed count of a concatenation is the sum of the counts |
| Stats.CompletedCountMarkOne | src/pages/Tasks.jsx:111-114 | completing one log raises the completed count by 0 or 1 |
| Stats.AllLogs | src/pages/Dashboard.jsx:172-175 | the logs of all of a goal's tasks as one list, tasks without `task_logs` contributing none |
| Stats.RoundPercent | src/pages/Dashboard.jsx:110 | `Math.round(c/t*100)` in exact arithmetic: the half-up rounding of 100c/t, within 0..100, 0 for c = 0 and 100 for c = t |
| Stats.RoundPercentBounds | src/pages/Dashboard.jsx:177 | the rounding formula lies in 0..100 and meets the half-up characterisation |
| Stats.RoundedPercentUnique | src/pages/WeeklyReview.jsx:88 | the half-up rounded percentage of c out of t has only one value |
| Stats.RoundPercentMonotone | src/pages/Dashboard.jsx:177 | more completed logs out of the same total never give a lower percentage |
| Stats.DayOfWeek | src/pages/WeeklyReview.jsx:13 | `getDay()` is in 0..6 |
| Stats.DayOfWeekAnchor | src/pages/WeeklyReview.jsx:13 | day 0 is a Thursday and each day advances the weekday by one, so Sundays are the days 3 more than a multiple of 7 |
| Stats.WeekStart | src/pages/Dashboard.jsx:98-99 | `startOfWeek(today, {weekStartsOn: 1})` is a Monday no later than today and within six days of it |
| Stats.WeekStartUnique | src/pages/WeeklyReview.jsx:14-15 | exactly one Monday has a week containing today |
| Stats.SundayEndsWeek | src/pages/WeeklyReview.jsx:13-15 | on a Sunday, the review's week ends today |
| Stats.InWeek | src/pages/Dashboard.jsx:104 | `logDate >= weekStart && logDate <= weekEnd` on whole days: Monday to Sunday inclusive |
| Stats.WeekLogs | src/pages/Dashboard.jsx:102-105 | the filter keeps exactly the logs due from Monday to Sunday inclusive |
| JsText.DigitChar | src/pages/Tasks.jsx:129 | a digit character and its value correspond |
| JsText.TrimStart | src/pages/Tasks.jsx:84 | `parseInt` drops the leading white space and nothing else |
| JsText.DigitRun | src/pages/Tasks.jsx:84 | the longest run of digits at the front of the text |
| JsText.ParseInt | src/pages/Tasks.jsx:84 | `parseInt` yields a number exactly when a digit follows the white space and optional sign |
| JsText.ParseSigned | src/pages/Tasks.jsx:84 | after the white space, a number exactly when a digit follows the optional sign; a minus sign negates it |
| JsText.ParseDigits | src/pages/Tasks.jsx:84 | a value exactly when the text starts with a digit |
| JsText.NatToString | src/pages/Tasks.jsx:129 | decimal digits with no leading zero whose value is the number |
| JsText.IntToString | src/pages/Tasks.jsx:129 | `${n}` is non-empty and starts with `-` exactly for negative n |
| JsText.ParseIntSkipsWhiteSpace | src/pages/Tasks.jsx:84 | a leading white-space character does not change the parse |
| JsText.TrimStartStep | src/pages/Tasks.jsx:84 | trimming text that starts with white space is trimming its tail |
| JsText.DigitRunOfDigits | src/pages/Tasks.jsx:84 | the digit run stops at the first non-digit |
| JsText.ParseDigitsOfDigits | src/pages/Tasks.jsx:84 | digits followed by a non-digit are read as the digits' value |
| JsText.StartsWithDigit | src/pages/Tasks.jsx:84 | text starting with a digit is neither trimmed nor signed |
| JsText.ParseSignedMinus | src/pages/Tasks.jsx:84 | a leading minus sign negates the number that follows, and gives NaN when none does |
| JsText.ParseIntOfDigits | src/pages/Tasks.jsx:84 | a number's digits, followed by non-digit text, parse back to that number |
| JsText.ParseIntOfNegativeDigits | src/pages/Tasks.jsx:84 | the same, after a minus sign, gives the negated number |
| JsText.ParseIntOfIntToString | src/pages/Tasks.jsx:84 | `parseInt` reads back any integer that `${n}` wrote, followed by non-digit text |
| Dashboard.TotalGoals | src/pages/Dashboard.jsx:76 | the number of goals, 0 when the data is missing |
| Dashboard.CompletedToday | src/pages/Dashboard.jsx:77 | the number of completed logs in today's list (0 when the data is missing), at most the list's length, equal to it exactly when all are completed |
| Dashboard.WeeklyCompletion | src/pages/Dashboard.jsx:96-111 | 0 when no log is due this week; otherwise the rounded percentage of this week's logs that are completed, in 0..100, and 100 when all are |
| Dashboard.DashboardKeepsLog | src/pages/Dashboard.jsx:101-105 | the weekly filter on instants: the due date read as local midnight, between local Monday midnight and the end of Sunday |
| Dashboard.DashboardWindow | src/pages/Dashboard.jsx:101-105 | in every time zone the Dashboard keeps exactly the logs due Monday to Sunday |
| Dashboard.CompletedTodayWithinWeek | src/pages/Dashboard.jsx:77-78 | when today's list is the logs due today, "Completed Today" is at most the completed logs of this week |
| Dashboard.TaskCompletedCount | src/pages/Dashboard.jsx:174 | `task.task_logs?.filter(...).length \|\| 0`: the completed count of the task's logs, 0 without `task_logs`, no more than its logs |
| Dashboard.TaskLogCount | src/pages/Dashboard.jsx:172 | `task.task_logs?.length \|\| 0`: the number of logs, 0 without `task_logs` |
| Dashboard.TotalLogs | src/pages/Dashboard.jsx:172 | the total is 0 exactly when no task has a log; `GoalCountsOfAllLogs` gives its value |
| Dashboard.CompletedLogs | src/pages/Dashboard.jsx:173-175 | the goal's completed logs are no more than its logs; `GoalCountsOfAllLogs` gives its value |
| Dashboard.GoalCountsOfAllLogs | src/pages/Dashboard.jsx:172-175 | the total reduction is the number of the goal's logs and the completed reduction their completed count |
| Dashboard.GoalProgress | src/pages/Dashboard.jsx:169-178 | 0 with no tasks or no logs; otherwise the half-up rounded percentage of the completed reduction over the total reduction, in 0..100 (their values: `GoalCountsOfAllLogs`) |
| Dashboard.GoalProgressOverAllLogs | src/pages/Dashboard.jsx:169-178 | progress is 0 when the goal has no logs, else the rounded percentage of all its logs that are completed |
| Dashboard.TotalsAppend | src/pages/Dashboard.jsx:172-175 | both reductions add over a concatenation of task lists |
| Dashboard.MarkLogCompleted | src/pages/Dashboard.jsx:150-163 | after the update and the refetch: the one log becomes completed, every other log and task is unchanged, the goal keeps its id |
| Dashboard.MarkLogCounts | src/pages/Dashboard.jsx:172-175 | completing one log keeps the total and raises the completed count by at most one |
| Dashboard.GoalProgressMonotone | src/pages/Dashboard.jsx:169-178 | completing a pending or missed log never lowers the goal's progress |
| Dashboard.GoalProgressIgnoresTaskWithoutLogs | src/pages/Dashboard.jsx:172-174 | a task with no `task_logs` contributes 0 to both counts, wherever it sits |
| Dashboard.TotalsIgnoreTaskWithoutLogs | src/pages/Dashboard.jsx:172-175 | inserting a task without `task_logs` changes neither reduction |
| Dashboard.LogsOn | src/pages/Dashboard.jsx:118-124 | a date's group holds exactly the logs due on that date |
| Dashboard.Dates | src/pages/Dashboard.jsx:128 | `Object.keys(logsByDate)` as a set: the due dates of the logs |
| Dashboard.EmptyGroup | src/pages/Dashboard.jsx:120-122 | a date is a key exactly when its group is non-empty |
| Dashboard.PerfectRun | src/pages/Dashboard.jsx:135-145 | the current run consists of due dates |
| Dashboard.Streak | src/pages/Dashboard.jsx:113-148 | the streak is at most the number of distinct due dates |
| Dashboard.DayRate | src/pages/Dashboard.jsx:129-132 | a day's rate is 1 exactly when its group is non-empty and all of it completed |
| Dashboard.IsOne | src/pages/Dashboard.jsx:140 | `dailyRates[date] === 1`: a ratio with all of a non-empty group completed |
| Dashboard.DayRateOneIffPerfect | src/pages/Dashboard.jsx:128-140 | groups are never empty, so a rate of 1 means exactly that the day is perfect |
| Dashboard.InsertAsc | src/pages/Dashboard.jsx:136 | inserting a new key keeps the sequence ascending and adds exactly that key |
| Dashboard.AscendingTail | src/pages/Dashboard.jsx:136 | the tail of an ascending sequence is ascending and above its head |
| Dashboard.AscendingCons | src/pages/Dashboard.jsx:136 | a value below every element can go in front of an ascending sequence |
| Dashboard.SortAsc | src/pages/Dashboard.jsx:136 | `sort()` on distinct date keys: ascending, with the same keys |
| Dashboard.Reverse | src/pages/Dashboard.jsx:136 | `reverse()` mirrors the positions |
| Dashboard.MostRecentFirst | src/pages/Dashboard.jsx:136 | the keys, strictly decreasing, most recent first |
| Dashboard.ReverseOfAscending | src/pages/Dashboard.jsx:136 | reversing the ascending keys gives strictly decreasing keys, the same ones |
| Dashboard.ReverseSameElements | src/pages/Dashboard.jsx:136 | `reverse()` keeps exactly the same elements |
| Dashboard.RunWithinPrefix | src/pages/Dashboard.jsx:139-145 | the loop's break at the first imperfect date leaves no perfect-run date uncounted |
| Dashboard.PrefixWithinRun | src/pages/Dashboard.jsx:139-145 | every date the loop counted is in the current run |
| Dashboard.StreakIsPrefixRun | src/pages/Dashboard.jsx:139-147 | k leading perfect dates followed by an imperfect one, or by none, mean a streak of k |
| Dashboard.DistinctPrefixCard | src/pages/Dashboard.jsx:136-141 | the first k dates of the sorted keys are k distinct dates |
| Dashboard.DecreasingCard | src/pages/Dashboard.jsx:136 | the sorted keys, being strictly decreasing, are as many dates as entries |
| Dashboard.DecreasingTail | src/pages/Dashboard.jsx:136 | the tail of a strictly decreasing sequence is strictly decreasing and lacks the head |
| Dashboard.ElementsOfCons | src/pages/Dashboard.jsx:136 | the elements of a sequence are its head and the elements of its tail |
| Dashboard.LeadingPerfect | src/pages/Dashboard.jsx:139-145 | the number of leading perfect dates: all before it are perfect and the next is not |
| Dashboard.StreakCountsLeadingPerfectDays | src/pages/Dashboard.jsx:135-147 | the streak is the number of leading perfect dates, most recent first, stopping at the first imperfect date |
| Dashboard.StreakOfNoLogs | src/pages/Dashboard.jsx:114 | no logs, no streak |
| Dashboard.StreakBrokenOnLatestDay | src/pages/Dashboard.jsx:139-143 | one non-completed log on the most recent due date makes the streak 0 |
| Dashboard.StreakIgnoresOrder | src/pages/Dashboard.jsx:117-136 | the streak does not depend on the order of the input logs |
| Dashboard.LogsOnSnoc | src/pages/Dashboard.jsx:123 | `push` appends a log to its own date's group only |
| Dashboard.DatesSnoc | src/pages/Dashboard.jsx:120-122 | a log adds its due date to the keys |
| Dashboard.GroupStep | src/pages/Dashboard.jsx:118-124 | one `forEach` step keeps the grouping state: each group holds the logs so far on its date, and the key list stays duplicate-free |
| Dashboard.AddToGroup | src/pages/Dashboard.jsx:120-123 | one `forEach` step on `logsByDate`: create the date's group if absent, then push the log |
| Dashboard.AddKey | src/pages/Dashboard.jsx:120-122 | the key order: a date is appended exactly when its group is created |
| Dashboard.GroupEntryStep | src/pages/Dashboard.jsx:120-123 | after one push, each group holds the logs so far on its date |
| Dashboard.KeysStep | src/pages/Dashboard.jsx:120-122 | a date gets a key only when its group is created, so the key list stays duplicate-free |
| Dashboard.GroupStepAt | src/pages/Dashboard.jsx:118-124 | the grouping state after the first i logs becomes the one after i + 1 |
| Dashboard.GroupedAll | src/pages/Dashboard.jsx:116-124 | after every log, the groups are exactly the logs per due date |
| Dashboard.GroupByDate | src/pages/Dashboard.jsx:116-124 | `logsByDate` maps each due date to its logs in input order; the keys are listed once each |
| Dashboard.DailyRates | src/pages/Dashboard.jsx:126-133 | `dailyRates` has the same keys, each with its group's rate |
| Dashboard.CountPerfectRun | src/pages/Dashboard.jsx:137-145 | the `for ... break` walk counts the leading dates whose rate is 1 and stops at the first that is not |
| Dashboard.RatesMarkPerfectDays | src/pages/Dashboard.jsx:128-140 | in `dailyRates`, a rate of 1 marks exactly the perfect days |
| Dashboard.CalculateCurrentStreak | src/pages/Dashboard.jsx:113-148 | the loop returns exactly the streak: 0 for no logs, at most the number of distinct dates |
| WeeklyReview.WeekCompleted | src/pages/WeeklyReview.jsx:83-84 | the completed in-week logs are no more than the in-week logs |
| WeeklyReview.TaskWeekLogs | src/pages/WeeklyReview.jsx:77-81 | a task's logs due in the week; none without `task_logs` |
| WeeklyReview.WeekTotal | src/pages/WeeklyReview.jsx:83 | `total += weekLogs.length` summed over the tasks |
| WeeklyReview.WeeklyStats | src/pages/WeeklyReview.jsx:68-90 | zeros for no tasks; completed ≤ total; percentage 0 for an empty week, else the rounded percentage, in 0..100 |
| WeeklyReview.CalculateWeeklyStats | src/pages/WeeklyReview.jsx:68-90 | the `forEach` accumulation gives exactly the weekly statistics of the goal's current week |
| WeeklyReview.WeekCountsStep | src/pages/WeeklyReview.jsx:76-86 | one more task adds its in-week logs to the total and its completed ones to the completed count |
| WeeklyReview.WeekLogsAppend | src/pages/WeeklyReview.jsx:78-81 | the week filter distributes over concatenation |
| WeeklyReview.WeekCountsOfAllLogs | src/pages/WeeklyReview.jsx:76-86 | the per-task sums equal the counts over the goal's logs as one list, skipping tasks without `task_logs` |
| WeeklyReview.ReviewKeepsLog | src/pages/WeeklyReview.jsx:78-81 | the review filter on instants: the due date read as UTC midnight, against local Monday midnight and the end of Sunday |
| WeeklyReview.ReviewWindow | src/pages/WeeklyReview.jsx:78-81 | at local time at or ahead of UTC the review page keeps Monday to Sunday; behind UTC it keeps Tuesday to the next Monday |
| WeeklyReview.WindowsDisagreeWestOfUtc | src/pages/WeeklyReview.jsx:78-81 | at UTC-5 on 2024-01-14 the Dashboard keeps 2024-01-08 and the review page drops it, and the reverse for 2024-01-15 |
| WeeklyReview.WeeklyStatsAgreesWithDashboard | src/pages/WeeklyReview.jsx:88 | over the Monday-to-Sunday window, the goal's weekly percentage is the Dashboard's weekly completion over that goal's logs; in the source this holds only at local time at or ahead of UTC |
| WeeklyReview.SuggestionTier | src/pages/WeeklyReview.jsx:93-100 | exactly one of four tiers, by the thresholds 90, 70 and 50 |
| WeeklyReview.SuggestionTierMonotone | src/pages/WeeklyReview.jsx:93-100 | a higher percentage never gets a lower tier |
| WeeklyReview.GenerateSuggestions | src/pages/WeeklyReview.jsx:92-102 | each of the four texts is returned exactly on its threshold band |
| WeeklyReview.GeneratedTextIdentifiesTier | src/pages/WeeklyReview.jsx:92-102 | two weeks get the same text exactly when they are in the same tier |
| WeeklyReview.CardFallback | src/pages/WeeklyReview.jsx:221-224 | the card's own four texts, each exactly on its band |
| WeeklyReview.CardSuggestion | src/pages/WeeklyReview.jsx:220-224 | a stored non-empty suggestion is shown; a missing review, a missing suggestion or an empty one falls back to the card's text |
| WeeklyReview.FallbackAgreesWithGenerated | src/pages/WeeklyReview.jsx:220-224 | the fallback and the generated text always name the same tier |
| WeeklyReview.PercentageColour | src/pages/WeeklyReview.jsx:243-245 | green iff ≥ 80, yellow iff 60..79, red iff < 60 |
| WeeklyReview.ColourMatchesExtremeTiers | src/pages/WeeklyReview.jsx:243-245 | an excellent week is green; a week needing significant improvement is red |
| WeeklyReview.LastReviewFor | src/pages/WeeklyReview.jsx:55-57 | the review found for a goal is one of the rows, for that goal |
| WeeklyReview.LastReviewForNone | src/pages/WeeklyReview.jsx:55-57 | no review for a goal exactly when no row is for it |
| WeeklyReview.LastReviewForIsLast | src/pages/WeeklyReview.jsx:55-57 | the goal's review is a row for it with no later row for it, so the last one wins |
| WeeklyReview.BuildReviewsMap | src/pages/WeeklyReview.jsx:54-57 | each goal with a row maps to its last row in fetched order, and no other goal is present |
| WeeklyReview.ExistingReview | src/pages/WeeklyReview.jsx:189 | `reviews[goal.id]`, absent exactly when the key is absent |
| WeeklyReview.InitialForm | src/pages/WeeklyReview.jsx:209-213 | the form starts from the saved answer, or null, and the saved texts, or empty |
| WeeklyReview.SubmitDisabled | src/pages/WeeklyReview.jsx:318 | disabled exactly when saving or no Yes/No answer is chosen |
| WeeklyReview.SubmitNeedsAnAnswer | src/pages/WeeklyReview.jsx:318 | a new card starts disabled; an answered review or a chosen answer enables it if not saving; saving always disables |
| WeeklyReview.SubmitLabel | src/pages/WeeklyReview.jsx:321 | "Saving..." while saving, "Update Review" iff a review exists, else "Save Review" |
| WeeklyReview.FindGoal | src/pages/WeeklyReview.jsx:110 | `goals.find`: absent iff no goal has the id; otherwise the first with it |
| WeeklyReview.ReviewPayload | src/pages/WeeklyReview.jsx:113-121 | the upserted row: the user, the goal, today, the three answers and the generated text |
| WeeklyReview.SaveReview | src/pages/WeeklyReview.jsx:129-132 | the goal's entry is replaced; every other entry is unchanged |
| WeeklyReview.SubmitReview | src/pages/WeeklyReview.jsx:104-138 | only the submitted goal's entry can change, and only with a user, a known goal and a successful upsert |
| WeeklyReview.SavedReviewShowsGeneratedSuggestion | src/pages/WeeklyReview.jsx:110-132 | after a successful save the card shows the generated suggestion, says "Update Review", and a fresh form holds the submitted answers |
| Tasks.StoredDays | src/pages/Tasks.jsx:343 | the All Tasks list passes the stored `custom_days`: never `undefined`, a number exactly when one is stored |
| Tasks.TodaysDays | src/pages/Tasks.jsx:54-64 | the log query embeds no `custom_days`, so Today's Tasks passes `undefined` |
| Tasks.CustomDaysText | src/pages/Tasks.jsx:129 | `${customDays}`: "undefined", "null", or the integer's decimal text |
| Tasks.FrequencyText | src/pages/Tasks.jsx:124-132 | the three fixed texts, "Every ... days" for custom, any other value unchanged |
| Tasks.TodaysCustomTaskShowsUndefined | src/pages/Tasks.jsx:293 | a custom task shows "Every undefined days" in Today's Tasks, which never equals what All Tasks shows |
| Tasks.CustomTextInjective | src/pages/Tasks.jsx:129 | two custom texts are equal exactly when their days texts are |
| Tasks.FrequencyTextMatchesFormLabels | src/pages/Tasks.jsx:222-224 | the list shows the frequency select's own label for daily, every 2 days and weekly |
| Tasks.CustomFrequencyTextReadsBack | src/pages/Tasks.jsx:129 | the number of days can be read back from a custom frequency's text |
| Tasks.StatusColor | src/pages/Tasks.jsx:134-141 | always one of three classes: completed iff completed, missed iff missed, pending for every other status |
| Tasks.ActionFor | src/pages/Tasks.jsx:297-316 | the Complete button iff pending, the completed badge iff completed, the missed badge iff missed, otherwise nothing |
| Tasks.ActionAgreesWithColour | src/pages/Tasks.jsx:283-316 | badges agree with colours; the button appears only on pending-coloured rows, and an unknown status is pending-coloured with no action |
| Tasks.MarkCompleteShowsCompleted | src/pages/Tasks.jsx:107-118 | a log marked complete shows the completed badge and colour |
| Tasks.EmptyTaskForm | src/pages/Tasks.jsx:12-18 | the form starts, and is reset, to daily with one custom day and today's start date |
| Tasks.TaskData | src/pages/Tasks.jsx:82-85 | custom days are null unless custom, else the `parseInt` of the field; all other fields pass through |
| Tasks.TaskDataRoundTrip | src/pages/Tasks.jsx:82-85 | a custom frequency typed as n is stored as n and listed as "Every n days"; a fixed frequency stores null and is listed by its label |
| Tasks.EmptyFormIsDaily | src/pages/Tasks.jsx:93-99 | the reset form inserts a daily task with null custom days, listed "Daily" |
| Tasks.CustomDaysSkipsBlanks | src/pages/Tasks.jsx:84 | leading blanks in the days field are skipped |
| Tasks.CustomDaysIgnoresTrailingText | src/pages/Tasks.jsx:84 | text after the digits is ignored |
| Tasks.CustomDaysWithoutDigits | src/pages/Tasks.jsx:84 | a field with no digits stores null and is listed in All Tasks as "Every null days" |
| Layout.IsActive | src/components/Layout.jsx:36-41 | the root path is active only on "/"; any other path is active on every pathname it starts |
| Layout.StartsWith | src/components/Layout.jsx:40 | `pathname.startsWith(path)` |
| Layout.StartsWithIsPrefix | src/components/Layout.jsx:40 | a path starts a pathname exactly when the pathname is that path followed by more text |
| Layout.PrefixesOfOneString | src/components/Layout.jsx:40 | two prefixes of one pathname: the shorter starts the longer |
| Layout.NavPathsPrefixFree | src/components/Layout.jsx:29-34 | no non-root navigation path starts another |
| Layout.AtMostOneActive | src/components/Layout.jsx:29-41 | at most one navigation link is active for any pathname |
| Layout.ActiveItems | src/components/Layout.jsx:56-62 | the active links are exactly those whose path matches, and there is at most one |
| Layout.EachPageActivatesItsLink | src/components/Layout.jsx:29-41 | each page's own path activates exactly its own link |
| Layout.PrefixMatching | src/components/Layout.jsx:40 | "/goals/42" and even "/goalsX" activate Goals; "/goals/42" does not activate the root; "/unknown" activates nothing |

## Left out

- Backend calls: all queries, inserts, updates, upserts, authentication, and the server-side procedures that generate logs and mark them overdue. Their outcomes are parameters: the fetched lists, the signed-in user, whether an upsert succeeded.
- React state, effects and rendering. The modelled rules are those the rendered output depends on.
- WeeklyReview.WeeklyStats: models the review page's week filter as Monday to Sunday, which is what it keeps only where local time is at or ahead of UTC. `new Date('yyyy-MM-dd')` reads the due date as UTC midnight, against local week bounds. So at any negative offset, all day long, the page counts due dates from Tuesday to the following Monday (`WeeklyReview.ReviewWindow`, `WeeklyReview.WindowsDisagreeWestOfUtc`). The Dashboard's `parseISO` reads local midnight and keeps Monday to Sunday in every zone (`Dashboard.DashboardWindow`). `WeeklyReview.WeeklyStatsAgreesWithDashboard` therefore holds in the source only at offsets of zero or more.
- Other time-zone effects of `Date` and date-fns: "today" and the week start are whole local day numbers, and daylight-saving days are not modelled.
- The Sunday-only gate of the Weekly Review page depends on the wall clock. Only its consequence is modelled: on a Sunday the week ends today (`Stats.SundayEndsWeek`).
- Stats.RoundPercent: does not model floating-point `Math.round(c / t * 100)`. The exact rational rounding can differ from the double result where c/t·100 lands next to a .5 boundary.
- Dashboard.SortAsc: sorts day numbers numerically where the source sorts `yyyy-MM-dd` strings. The two orders agree for four-digit years.
- JsText.ParseInt: models decimal digits only. Hexadecimal prefixes (`0x`), white space outside the listed characters, and the loss of precision for integers beyond 2^53 are not modelled.
- JsText.IntToString: renders every integer in decimal. JavaScript uses exponent notation from 10^21 on.
- WeeklyReview.Review: keeps only the columns the page reads back. The saved entry `{ ...reviewPayload, ...reviewData }` also carries the form's camelCase keys, which nothing reads.
- WeeklyReview.InitialForm: the card's state is initialised only when the card mounts. The model states what a freshly mounted card shows, not React's preserved state.
- The `saving` flag's transitions in `handleReviewSubmit` are not modelled. `SubmitDisabled` takes it as a parameter.
- The number input's browser validation (`required`, `min="1"`, `max="30"`). Any text is accepted and parsed.
- `markTaskComplete` sets `completed_at` from the clock. Only the status change is modelled (`Records.Completed`).
