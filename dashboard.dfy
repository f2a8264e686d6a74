/**
 * The statistics on the Dashboard page: the four stat cards ("Active Goals",
 * "Completed Today", "This Week", "Perfect Days") and the per-goal progress
 * bars.
 */
module Dashboard {
  import opened Records
  import opened Stats

  // ---------------------------------------------------------------------
  // "Active Goals" and "Completed Today"
  // ---------------------------------------------------------------------

  /** `goalsData?.length || 0` */
  function TotalGoals(goalsData: Option<seq<Goal>>): (r: nat)
    ensures goalsData.None? ==> r == 0
    ensures goalsData.Some? ==> r == |goalsData.value|
  {
    match goalsData
    case None => 0
    case Some(goals) => |goals|
  }

  /** `tasksData?.filter(task => task.status === 'completed').length || 0` over today's logs. */
  function CompletedToday(tasksData: Option<seq<Log>>): (r: nat)
    ensures tasksData.None? ==> r == 0
    ensures tasksData.Some? ==> r == CompletedCount(tasksData.value)
    ensures tasksData.Some? ==> r <= |tasksData.value|
    ensures tasksData.Some? ==>
      (r == |tasksData.value| <==> forall i :: 0 <= i < |tasksData.value| ==> IsCompleted(tasksData.value[i]))
  {
    match tasksData
    case None => 0
    case Some(logs) => CompletedCount(logs)
  }

  // ---------------------------------------------------------------------
  // "This Week": calculateWeeklyCompletion
  // ---------------------------------------------------------------------

  /**
   * The percentage of the logs due in the Monday-to-Sunday week containing
   * `today` that are completed; 0 when no log is due that week.
   */
  function WeeklyCompletion(taskLogs: seq<Log>, today: int): (r: nat)
    ensures r <= 100
    ensures (forall l :: l in taskLogs ==> !InWeek(l.dueDay, WeekStart(today))) ==> r == 0
    ensures var week := WeekLogs(taskLogs, WeekStart(today));
      week != [] ==> IsRoundedPercent(r, CompletedCount(week), |week|)
    ensures (exists l :: l in taskLogs && InWeek(l.dueDay, WeekStart(today)))
         && (forall l :: l in taskLogs && InWeek(l.dueDay, WeekStart(today)) ==> IsCompleted(l))
        ==> r == 100
  {
    var thisWeekLogs := WeekLogs(taskLogs, WeekStart(today));
    if |thisWeekLogs| == 0 then 0
    else
      assert forall i :: 0 <= i < |thisWeekLogs| ==> thisWeekLogs[i] in thisWeekLogs;
      RoundPercent(CompletedCount(thisWeekLogs), |thisWeekLogs|)
  }

  /**
   * The Dashboard's filter on instants: `parseISO` reads the date-only
   * `due_date` as local midnight, and `weekEnd` is the last millisecond
   * before the next local Monday (instants are whole minutes, so `<` the
   * next Monday is the same test).
   */
  predicate DashboardKeepsLog(day: int, weekStart: int, utcOffset: int) {
    weekStart * MinutesPerDay - utcOffset <= day * MinutesPerDay - utcOffset < (weekStart + 7) * MinutesPerDay - utcOffset
  }

  /** Local midnights compare as their days, so the Dashboard keeps Monday to Sunday in every time zone. */
  lemma DashboardWindow(day: int, weekStart: int, utcOffset: int)
    ensures DashboardKeepsLog(day, weekStart, utcOffset) <==> InWeek(day, weekStart)
  {
  }

  /**
   * When today's list holds the logs of `taskLogs` due today, "Completed
   * Today" never exceeds the completed logs counted for this week.
   */
  lemma {:induction false} CompletedTodayWithinWeek(taskLogs: seq<Log>, today: int)
    ensures CompletedToday(Some(LogsOn(taskLogs, today))) <= CompletedCount(WeekLogs(taskLogs, WeekStart(today)))
  {
    if taskLogs != [] {
      var init, last := taskLogs[..|taskLogs| - 1], taskLogs[|taskLogs| - 1];
      assert taskLogs == init + [last];
      CompletedTodayWithinWeek(init, today);
      LogsOnSnoc(init, last, today);
      CompletedCountAppend(LogsOn(init, today), if last.dueDay == today then [last] else []);
      CompletedCountAppend(WeekLogs(init, WeekStart(today)),
                          if InWeek(last.dueDay, WeekStart(today)) then [last] else []);
    }
  }

  // ---------------------------------------------------------------------
  // Goal progress bars: calculateGoalProgress
  // ---------------------------------------------------------------------

  /** `task.task_logs?.length || 0` */
  function TaskLogCount(task: Task): (n: nat)
    ensures task.logs.None? ==> n == 0
    ensures task.logs.Some? ==> n == |task.logs.value|
  {
    match task.logs
    case None => 0
    case Some(logs) => |logs|
  }

  /** `task.task_logs?.filter(log => log.status === 'completed').length || 0` */
  function TaskCompletedCount(task: Task): (r: nat)
    ensures task.logs.None? ==> r == 0
    ensures task.logs.Some? ==> r == CompletedCount(task.logs.value)
    ensures r <= TaskLogCount(task)
  {
    match task.logs
    case None => 0
    case Some(logs) => CompletedCount(logs)
  }

  /** `goal.tasks.reduce((acc, task) => acc + (task.task_logs?.length || 0), 0)` */
  function TotalLogs(tasks: seq<Task>): (r: nat)
    ensures r == 0 <==> forall i :: 0 <= i < |tasks| ==> TaskLogCount(tasks[i]) == 0
  {
    if tasks == [] then 0
    else TotalLogs(tasks[..|tasks| - 1]) + TaskLogCount(tasks[|tasks| - 1])
  }

  /** The same reduction over the completed logs; never more than the total. */
  function CompletedLogs(tasks: seq<Task>): (r: nat)
    ensures r <= TotalLogs(tasks)
  {
    if tasks == [] then 0
    else CompletedLogs(tasks[..|tasks| - 1]) + TaskCompletedCount(tasks[|tasks| - 1])
  }

  /**
   * Both reductions count the goal's logs taken as one list: the total is
   * its length and the completed reduction its completed count.
   */
  lemma {:induction false} GoalCountsOfAllLogs(tasks: seq<Task>)
    ensures TotalLogs(tasks) == |AllLogs(tasks)|
    ensures CompletedLogs(tasks) == CompletedCount(AllLogs(tasks))
  {
    if tasks != [] {
      var init, last := tasks[..|tasks| - 1], tasks[|tasks| - 1];
      GoalCountsOfAllLogs(init);
      CompletedCountAppend(AllLogs(init), last.logs.GetOr([]));
    }
  }

  /**
   * The percentage of all of a goal's logs that are completed; 0 when the
   * goal has no tasks or its tasks have no logs.
   */
  function GoalProgress(goal: Goal): (r: nat)
    ensures r <= 100
    ensures goal.tasks.None? || goal.tasks == Some([]) ==> r == 0
    ensures goal.tasks.Some? && TotalLogs(goal.tasks.value) == 0 ==> r == 0
    ensures goal.tasks.Some? && TotalLogs(goal.tasks.value) > 0 ==>
      IsRoundedPercent(r, CompletedLogs(goal.tasks.value), TotalLogs(goal.tasks.value))
  {
    match goal.tasks
    case None => 0
    case Some(tasks) =>
      if |tasks| == 0 then 0
      else
        var totalLogs := TotalLogs(tasks);
        var completedLogs := CompletedLogs(tasks);
        if totalLogs > 0 then RoundPercent(completedLogs, totalLogs) else 0
  }

  /** Goal progress is the rounded share of completed logs among all of the goal's logs. */
  lemma GoalProgressOverAllLogs(goal: Goal)
    requires goal.tasks.Some?
    ensures AllLogs(goal.tasks.value) == [] ==> GoalProgress(goal) == 0
    ensures AllLogs(goal.tasks.value) != [] ==>
      IsRoundedPercent(GoalProgress(goal), CompletedCount(AllLogs(goal.tasks.value)), |AllLogs(goal.tasks.value)|)
  {
    GoalCountsOfAllLogs(goal.tasks.value);
  }

  lemma {:induction false} TotalsAppend(a: seq<Task>, b: seq<Task>)
    ensures TotalLogs(a + b) == TotalLogs(a) + TotalLogs(b)
    ensures CompletedLogs(a + b) == CompletedLogs(a) + CompletedLogs(b)
    decreases |b|
  {
    if b == [] {
      assert a + b == a;
    } else {
      var b' := b[..|b| - 1];
      assert (a + b)[..|a + b| - 1] == a + b';
      TotalsAppend(a, b');
    }
  }

  /** The goal after its `i`-th task's `j`-th log is marked completed. */
  function MarkLogCompleted(goal: Goal, i: nat, j: nat): (r: Goal)
    requires goal.tasks.Some? && i < |goal.tasks.value|
    requires goal.tasks.value[i].logs.Some? && j < |goal.tasks.value[i].logs.value|
    ensures r.id == goal.id && r.tasks.Some? && |r.tasks.value| == |goal.tasks.value|
    ensures var logs := goal.tasks.value[i].logs.value;
      r.tasks.value[i].logs == Some(logs[j := Completed(logs[j])])
    ensures forall k :: 0 <= k < |goal.tasks.value| && k != i ==> r.tasks.value[k] == goal.tasks.value[k]
  {
    var logs := goal.tasks.value[i].logs.value;
    Goal(goal.id, Some(goal.tasks.value[i := Task(Some(logs[j := Completed(logs[j])]))]))
  }

  /** Marking one log completed keeps the total and raises the completed count by at most one. */
  lemma {:induction false} MarkLogCounts(goal: Goal, i: nat, j: nat)
    requires goal.tasks.Some? && i < |goal.tasks.value|
    requires goal.tasks.value[i].logs.Some? && j < |goal.tasks.value[i].logs.value|
    ensures var before, after := goal.tasks.value, MarkLogCompleted(goal, i, j).tasks.value;
      && TotalLogs(after) == TotalLogs(before)
      && CompletedLogs(before) <= CompletedLogs(after) <= CompletedLogs(before) + 1
  {
    var tasks := goal.tasks.value;
    var logs := tasks[i].logs.value;
    var t' := Task(Some(logs[j := Completed(logs[j])]));
    var after := MarkLogCompleted(goal, i, j).tasks.value;
    assert tasks == tasks[..i] + [tasks[i]] + tasks[i + 1..];
    assert after == tasks[..i] + [t'] + tasks[i + 1..];
    TotalsAppend(tasks[..i] + [tasks[i]], tasks[i + 1..]);
    TotalsAppend(tasks[..i], [tasks[i]]);
    TotalsAppend(tasks[..i] + [t'], tasks[i + 1..]);
    TotalsAppend(tasks[..i], [t']);
    assert [tasks[i]][..0] == [] && [t'][..0] == [];
    CompletedCountMarkOne(logs, j);
  }

  /** Completing a pending or missed log never lowers the goal's progress. */
  lemma GoalProgressMonotone(goal: Goal, i: nat, j: nat)
    requires goal.tasks.Some? && i < |goal.tasks.value|
    requires goal.tasks.value[i].logs.Some? && j < |goal.tasks.value[i].logs.value|
    ensures GoalProgress(goal) <= GoalProgress(MarkLogCompleted(goal, i, j))
  {
    var before, after := goal.tasks.value, MarkLogCompleted(goal, i, j).tasks.value;
    MarkLogCounts(goal, i, j);
    if TotalLogs(before) > 0 {
      RoundPercentMonotone(CompletedLogs(before), CompletedLogs(after), TotalLogs(before));
    }
  }

  /** A task without `task_logs` adds nothing: inserting one anywhere keeps the progress. */
  lemma GoalProgressIgnoresTaskWithoutLogs(goal: Goal, k: nat)
    requires goal.tasks.Some? && k <= |goal.tasks.value|
    ensures var tasks := goal.tasks.value;
      GoalProgress(Goal(goal.id, Some(tasks[..k] + [Task(None)] + tasks[k..]))) == GoalProgress(goal)
  {
    var tasks := goal.tasks.value;
    TotalsIgnoreTaskWithoutLogs(tasks[..k], tasks[k..]);
    assert tasks[..k] + tasks[k..] == tasks;
  }

  lemma TotalsIgnoreTaskWithoutLogs(pre: seq<Task>, post: seq<Task>)
    ensures TotalLogs(pre + [Task(None)] + post) == TotalLogs(pre + post)
    ensures CompletedLogs(pre + [Task(None)] + post) == CompletedLogs(pre + post)
  {
    TotalsAppend(pre + [Task(None)], post);
    TotalsAppend(pre, [Task(None)]);
    TotalsAppend(pre, post);
    assert [Task(None)][..0] == [];
  }


  // ---------------------------------------------------------------------
  // "Perfect Days": calculateCurrentStreak
  // ---------------------------------------------------------------------

  /** The distinct due dates (`Object.keys(logsByDate)`). */
  function Dates(logs: seq<Log>): set<int> {
    set l | l in logs :: l.dueDay
  }

  /** The logs due on `day`, in input order: the group `logsByDate[day]`. */
  function LogsOn(logs: seq<Log>, day: int): (r: seq<Log>)
    ensures |r| <= |logs|
    ensures forall l :: l in r <==> l in logs && l.dueDay == day
  {
    if logs == [] then []
    else
      var last := logs[|logs| - 1];
      var init := logs[..|logs| - 1];
      assert logs == init + [last];
      LogsOn(init, day) + (if last.dueDay == day then [last] else [])
  }

  /** A date is a key of `logsByDate` exactly when its group is non-empty. */
  lemma EmptyGroup(logs: seq<Log>, day: int)
    ensures day in Dates(logs) <==> LogsOn(logs, day) != []
  {
    if day in Dates(logs) {
      var l :| l in logs && l.dueDay == day;
      assert l in LogsOn(logs, day);
    }
  }

  /** Every log due on `day` is completed. */
  predicate PerfectDay(logs: seq<Log>, day: int) {
    forall l :: l in logs && l.dueDay == day ==> IsCompleted(l)
  }

  /** The due dates from which every later due date is perfect: the current run. */
  function PerfectRun(logs: seq<Log>): (run: set<int>)
    ensures run <= Dates(logs)
  {
    set d | d in Dates(logs) && forall e :: e in Dates(logs) && d <= e ==> PerfectDay(logs, e)
  }

  /** The number of most recent due dates, counted back from the last, that are all perfect. */
  function Streak(logs: seq<Log>): (r: nat)
    ensures r <= |Dates(logs)|
  {
    var run, dates := PerfectRun(logs), Dates(logs);
    assert dates == run + (dates - run) && run * (dates - run) == {};
    |run|
  }

  /** A value of `dailyRates`: `completed / total`, or the literal 0 for an empty group. */
  datatype Rate = Ratio(completed: nat, total: nat) | Zero

  /** `dailyRates[date] === 1` */
  predicate IsOne(rate: Rate) {
    rate.Ratio? && rate.total > 0 && rate.completed == rate.total
  }

  /** `total > 0 ? (completed / total) : 0` for one day's group. */
  function DayRate(dayLogs: seq<Log>): (rate: Rate)
    ensures IsOne(rate) <==> dayLogs != [] && forall i :: 0 <= i < |dayLogs| ==> IsCompleted(dayLogs[i])
  {
    if |dayLogs| > 0 then Ratio(CompletedCount(dayLogs), |dayLogs|) else Zero
  }

  /** Every group is non-empty, so a rate of 1 means exactly that the day is perfect. */
  lemma DayRateOneIffPerfect(logs: seq<Log>, day: int)
    requires day in Dates(logs)
    ensures IsOne(DayRate(LogsOn(logs, day))) <==> PerfectDay(logs, day)
  {
    var group := LogsOn(logs, day);
    var l :| l in logs && l.dueDay == day;
    assert l in group;
    if PerfectDay(logs, day) {
      assert forall i :: 0 <= i < |group| ==> group[i] in group;
    }
    if IsOne(DayRate(group)) {
      forall l' | l' in logs && l'.dueDay == day ensures IsCompleted(l') {
        assert l' in group;
        var k :| 0 <= k < |group| && group[k] == l';
      }
    }
  }

  // The sort of the date keys. `Object.keys(dailyRates).sort().reverse()`
  // orders the 'yyyy-MM-dd' strings lexicographically, which is date order;
  // here the day numbers are sorted numerically.

  predicate Distinct(s: seq<int>) {
    forall i, j :: 0 <= i < j < |s| ==> s[i] != s[j]
  }

  predicate StrictlyAscending(s: seq<int>) {
    forall i, j :: 0 <= i < j < |s| ==> s[i] < s[j]
  }

  predicate StrictlyDecreasing(s: seq<int>) {
    forall i, j :: 0 <= i < j < |s| ==> s[i] > s[j]
  }

  /** Insert `x` into its place in an ascending sequence. */
  function InsertAsc(x: int, s: seq<int>): (r: seq<int>)
    requires StrictlyAscending(s) && x !in s
    ensures StrictlyAscending(r)
    ensures |r| == |s| + 1
    ensures forall y :: y in r <==> y == x || y in s
  {
    if s == [] || x < s[0] then
      AscendingCons(x, s);
      [x] + s
    else
      AscendingTail(s);
      var rest := InsertAsc(x, s[1..]);
      AscendingCons(s[0], rest);
      [s[0]] + rest
  }

  lemma AscendingTail(s: seq<int>)
    requires StrictlyAscending(s) && s != []
    ensures StrictlyAscending(s[1..])
    ensures forall y :: y in s[1..] ==> s[0] < y
    ensures s == [s[0]] + s[1..]
  {
    var rest := s[1..];
    forall i, j | 0 <= i < j < |rest| ensures rest[i] < rest[j] {
      assert rest[i] == s[i + 1] && rest[j] == s[j + 1];
    }
    forall y | y in rest ensures s[0] < y {
      var i :| 0 <= i < |rest| && rest[i] == y;
      assert s[i + 1] == y;
    }
  }

  /** A value below every element of an ascending sequence can go in front. */
  lemma AscendingCons(x: int, s: seq<int>)
    requires StrictlyAscending(s)
    requires forall y :: y in s ==> x < y
    ensures StrictlyAscending([x] + s)
  {
    var r := [x] + s;
    forall i, j | 0 <= i < j < |r| ensures r[i] < r[j] {
      assert r[j] == s[j - 1];
      if i > 0 {
        assert r[i] == s[i - 1];
      } else {
        assert s[j - 1] in s;
      }
    }
  }

  /** `keys.sort()` on keys that are distinct, as the keys of an object are. */
  function SortAsc(keys: seq<int>): (r: seq<int>)
    requires Distinct(keys)
    ensures StrictlyAscending(r)
    ensures |r| == |keys|
    ensures forall y :: y in r <==> y in keys
  {
    if keys == [] then []
    else InsertAsc(keys[0], SortAsc(keys[1..]))
  }

  /** `s.reverse()` */
  function Reverse(s: seq<int>): (r: seq<int>)
    ensures |r| == |s|
    ensures forall i :: 0 <= i < |s| ==> r[i] == s[|s| - 1 - i]
  {
    seq(|s|, i requires 0 <= i < |s| => s[|s| - 1 - i])
  }

  /** The distinct due dates, most recent first. */
  function MostRecentFirst(keys: seq<int>): (r: seq<int>)
    requires Distinct(keys)
    ensures StrictlyDecreasing(r)
    ensures |r| == |keys|
    ensures forall y :: y in r <==> y in keys
  {
    var asc := SortAsc(keys);
    ReverseOfAscending(asc);
    Reverse(asc)
  }

  /** Reversing an ascending sequence gives a decreasing one with the same elements. */
  lemma ReverseOfAscending(asc: seq<int>)
    requires StrictlyAscending(asc)
    ensures StrictlyDecreasing(Reverse(asc))
    ensures forall y :: y in Reverse(asc) <==> y in asc
  {
    var r, n := Reverse(asc), |asc|;
    forall i, j | 0 <= i < j < n ensures r[i] > r[j] {
      assert r[i] == asc[n - 1 - i] && r[j] == asc[n - 1 - j];
    }
    ReverseSameElements(asc);
  }

  lemma ReverseSameElements(s: seq<int>)
    ensures forall y :: y in Reverse(s) <==> y in s
  {
    var r, n := Reverse(s), |s|;
    forall y ensures y in r <==> y in s {
      if y in s {
        var i :| 0 <= i < n && s[i] == y;
        assert r[n - 1 - i] == y;
      }
      if y in r {
        var i :| 0 <= i < n && r[i] == y;
        assert s[n - 1 - i] == y;
      }
    }
  }

  lemma RunWithinPrefix(logs: seq<Log>, sorted: seq<int>, k: nat)
    requires StrictlyDecreasing(sorted) && forall y :: y in sorted <==> y in Dates(logs)
    requires k <= |sorted|
    requires k < |sorted| ==> !PerfectDay(logs, sorted[k])
    ensures PerfectRun(logs) <= set x | x in sorted[..k]
  {
    forall d | d in PerfectRun(logs) ensures d in sorted[..k] {
      var jd :| 0 <= jd < |sorted| && sorted[jd] == d;
      assert sorted[..k][jd] == d;
    }
  }

  lemma PrefixWithinRun(logs: seq<Log>, sorted: seq<int>, k: nat)
    requires StrictlyDecreasing(sorted) && forall y :: y in sorted <==> y in Dates(logs)
    requires k <= |sorted|
    requires forall j :: 0 <= j < k ==> PerfectDay(logs, sorted[j])
    ensures (set x | x in sorted[..k]) <= PerfectRun(logs)
  {
    forall d | d in sorted[..k] ensures d in PerfectRun(logs) {
      var jd :| 0 <= jd < k && sorted[jd] == d;
      forall e | e in Dates(logs) && d <= e ensures PerfectDay(logs, e) {
        var je :| 0 <= je < |sorted| && sorted[je] == e;
        assert je <= jd;
      }
    }
  }

  /**
   * If the first `k` dates, most recent first, are perfect and the next one
   * (if any) is not, the streak is `k`.
   */
  lemma StreakIsPrefixRun(logs: seq<Log>, sorted: seq<int>, k: nat)
    requires StrictlyDecreasing(sorted) && forall y :: y in sorted <==> y in Dates(logs)
    requires k <= |sorted|
    requires forall j :: 0 <= j < k ==> PerfectDay(logs, sorted[j])
    requires k < |sorted| ==> !PerfectDay(logs, sorted[k])
    ensures Streak(logs) == k
  {
    RunWithinPrefix(logs, sorted, k);
    PrefixWithinRun(logs, sorted, k);
    assert PerfectRun(logs) == set x | x in sorted[..k];
    DistinctPrefixCard(sorted, k);
  }

  /** The first `k` elements of a strictly decreasing sequence are `k` distinct values. */
  lemma {:induction false} DistinctPrefixCard(s: seq<int>, k: nat)
    requires StrictlyDecreasing(s) && k <= |s|
    ensures |set x | x in s[..k]| == k
  {
    var p := s[..k];
    assert StrictlyDecreasing(p) by {
      forall i, j | 0 <= i < j < |p| ensures p[i] > p[j] {
        assert p[i] == s[i] && p[j] == s[j];
      }
    }
    DecreasingCard(p);
  }

  /** A strictly decreasing sequence has as many distinct values as elements. */
  lemma {:induction false} DecreasingCard(s: seq<int>)
    requires StrictlyDecreasing(s)
    ensures |set x | x in s| == |s|
  {
    if s != [] {
      DecreasingTail(s);
      DecreasingCard(s[1..]);
      ElementsOfCons(s);
    }
  }

  lemma DecreasingTail(s: seq<int>)
    requires StrictlyDecreasing(s) && s != []
    ensures StrictlyDecreasing(s[1..])
    ensures s[0] !in s[1..]
  {
    var rest := s[1..];
    forall i, j | 0 <= i < j < |rest| ensures rest[i] > rest[j] {
      assert rest[i] == s[i + 1] && rest[j] == s[j + 1];
    }
  }

  lemma ElementsOfCons(s: seq<int>)
    requires s != []
    ensures (set x | x in s) == {s[0]} + (set x | x in s[1..])
  {
    assert s == [s[0]] + s[1..];
  }



  /** How many of the dates `sorted` starts with are perfect. */
  function LeadingPerfect(logs: seq<Log>, sorted: seq<int>): (k: nat)
    ensures k <= |sorted|
    ensures forall j :: 0 <= j < k ==> PerfectDay(logs, sorted[j])
    ensures k < |sorted| ==> !PerfectDay(logs, sorted[k])
  {
    if sorted == [] || !PerfectDay(logs, sorted[0]) then 0
    else 1 + LeadingPerfect(logs, sorted[1..])
  }

  /**
   * The streak counts the leading perfect dates, most recent first, and
   * stops at the first date with a log that is not completed.
   */
  lemma StreakCountsLeadingPerfectDays(logs: seq<Log>, sorted: seq<int>)
    requires StrictlyDecreasing(sorted) && forall y :: y in sorted <==> y in Dates(logs)
    ensures Streak(logs) == LeadingPerfect(logs, sorted)
  {
    StreakIsPrefixRun(logs, sorted, LeadingPerfect(logs, sorted));
  }

  lemma StreakOfNoLogs()
    ensures Streak([]) == 0
  {
    assert Dates([]) == {};
  }

  /** One log not completed on the most recent due date makes the streak 0. */
  lemma StreakBrokenOnLatestDay(logs: seq<Log>, l: Log)
    requires l in logs && !IsCompleted(l)
    requires forall l' :: l' in logs ==> l'.dueDay <= l.dueDay
    ensures Streak(logs) == 0
  {
    assert l.dueDay in Dates(logs);
    assert PerfectRun(logs) == {};
  }

  /** Grouping comes before sorting, so the order of the input list does not matter. */
  lemma StreakIgnoresOrder(a: seq<Log>, b: seq<Log>)
    requires multiset(a) == multiset(b)
    ensures Streak(a) == Streak(b)
  {
    forall l ensures l in a <==> l in b {
      assert l in a <==> l in multiset(a);
      assert l in b <==> l in multiset(b);
    }
    assert Dates(a) == Dates(b);
    assert forall d :: PerfectDay(a, d) == PerfectDay(b, d);
    assert PerfectRun(a) == PerfectRun(b);
  }

  /** `logsByDate[date].push(log)`, creating the group first when it is missing. */
  function AddToGroup(m: map<int, seq<Log>>, log: Log): map<int, seq<Log>> {
    m[log.dueDay := (if log.dueDay in m then m[log.dueDay] else []) + [log]]
  }

  lemma LogsOnSnoc(prefix: seq<Log>, log: Log, day: int)
    ensures LogsOn(prefix + [log], day) == LogsOn(prefix, day) + (if log.dueDay == day then [log] else [])
  {
    var next := prefix + [log];
    assert next[..|next| - 1] == prefix;
  }

  lemma DatesSnoc(prefix: seq<Log>, log: Log)
    ensures Dates(prefix + [log]) == Dates(prefix) + {log.dueDay}
  {
    forall x ensures x in prefix + [log] <==> x in prefix || x == log { }
  }

  lemma SliceSnoc<T>(s: seq<T>, i: nat)
    requires i < |s|
    ensures s[..i + 1] == s[..i] + [s[i]]
  {
  }

  /** The state of the grouping loop after the logs in `prefix`. */
  ghost predicate Grouped(prefix: seq<Log>, m: map<int, seq<Log>>, dates: seq<int>) {
    && m.Keys == Dates(prefix)
    && (forall d :: d in m ==> m[d] == LogsOn(prefix, d))
    && Distinct(dates)
    && (forall d :: d in dates <==> d in m)
  }

  /** `Object.keys` after the push: a new date goes at the end. */
  function AddKey(dates: seq<int>, m: map<int, seq<Log>>, log: Log): (r: seq<int>)
    ensures log.dueDay in m ==> r == dates
    ensures log.dueDay !in m ==> |r| == |dates| + 1 && r[..|dates|] == dates && r[|dates|] == log.dueDay
  {
    if log.dueDay in m then dates else dates + [log.dueDay]
  }

  /** One `forEach` step keeps every group equal to the logs so far on its date. */
  lemma GroupStep(prefix: seq<Log>, log: Log, m: map<int, seq<Log>>, dates: seq<int>)
    requires Grouped(prefix, m, dates)
    ensures Grouped(prefix + [log], AddToGroup(m, log), AddKey(dates, m, log))
  {
    var m' := AddToGroup(m, log);
    DatesSnoc(prefix, log);
    forall d | d in m' ensures m'[d] == LogsOn(prefix + [log], d) {
      GroupEntryStep(prefix, log, m, d);
    }
    KeysStep(dates, m, log);
  }

  lemma GroupEntryStep(prefix: seq<Log>, log: Log, m: map<int, seq<Log>>, d: int)
    requires m.Keys == Dates(prefix)
    requires forall e :: e in m ==> m[e] == LogsOn(prefix, e)
    requires d in AddToGroup(m, log)
    ensures AddToGroup(m, log)[d] == LogsOn(prefix + [log], d)
  {
    LogsOnSnoc(prefix, log, d);
    if d == log.dueDay && d !in m {
      EmptyGroup(prefix, d);
    }
  }

  lemma KeysStep(dates: seq<int>, m: map<int, seq<Log>>, log: Log)
    requires Distinct(dates) && forall d :: d in dates <==> d in m
    ensures Distinct(AddKey(dates, m, log))
    ensures forall d :: d in AddKey(dates, m, log) <==> d in AddToGroup(m, log)
  {
  }

  /** `GroupStep` for the `i`-th log of the input. */
  lemma GroupStepAt(taskLogs: seq<Log>, i: nat, m: map<int, seq<Log>>, dates: seq<int>)
    requires i < |taskLogs| && Grouped(taskLogs[..i], m, dates)
    ensures Grouped(taskLogs[..i + 1], AddToGroup(m, taskLogs[i]), AddKey(dates, m, taskLogs[i]))
  {
    GroupStep(taskLogs[..i], taskLogs[i], m, dates);
    SliceSnoc(taskLogs, i);
  }

  lemma GroupedAll(taskLogs: seq<Log>, m: map<int, seq<Log>>, dates: seq<int>)
    requires Grouped(taskLogs[..|taskLogs|], m, dates)
    ensures m.Keys == Dates(taskLogs)
    ensures forall d :: d in m ==> m[d] == LogsOn(taskLogs, d)
    ensures Distinct(dates) && forall d :: d in dates <==> d in m
  {
    assert taskLogs[..|taskLogs|] == taskLogs;
  }

  /**
   * The grouping step of `calculateCurrentStreak`: `logsByDate[date]` gets
   * every log due on that date, in input order; `dates` lists the keys in
   * insertion order, as `Object.keys(logsByDate)` does.
   */
  method GroupByDate(taskLogs: seq<Log>) returns (logsByDate: map<int, seq<Log>>, dates: seq<int>)
    ensures logsByDate.Keys == Dates(taskLogs)
    ensures forall d :: d in logsByDate ==> logsByDate[d] == LogsOn(taskLogs, d)
    ensures Distinct(dates) && forall d :: d in dates <==> d in logsByDate
  {
    logsByDate, dates := map[], [];
    for i := 0 to |taskLogs|
      invariant Grouped(taskLogs[..i], logsByDate, dates)
    {
      var log := taskLogs[i];
      var date := log.dueDay;
      ghost var before, beforeDates := logsByDate, dates;
      if date !in logsByDate {
        logsByDate := logsByDate[date := []];
        dates := dates + [date];
      }
      logsByDate := logsByDate[date := logsByDate[date] + [log]];
      assert logsByDate == AddToGroup(before, log);
      assert dates == AddKey(beforeDates, before, log);
      GroupStepAt(taskLogs, i, before, beforeDates);
    }
    GroupedAll(taskLogs, logsByDate, dates);
  }

  /** The rate step: `dailyRates[date]` is the completion rate of that date's group. */
  method DailyRates(logsByDate: map<int, seq<Log>>, dates: seq<int>) returns (dailyRates: map<int, Rate>)
    requires forall d :: d in dates ==> d in logsByDate
    ensures forall d :: d in dailyRates <==> d in dates
    ensures forall d :: d in dailyRates ==> dailyRates[d] == DayRate(logsByDate[d])
  {
    dailyRates := map[];
    for k := 0 to |dates|
      invariant forall d :: d in dailyRates <==> d in dates[..k]
      invariant forall d :: d in dailyRates ==> dailyRates[d] == DayRate(logsByDate[d])
    {
      var date := dates[k];
      var dayLogs := logsByDate[date];
      var completed := CompletedCount(dayLogs);
      var total := |dayLogs|;
      dailyRates := dailyRates[date := if total > 0 then Ratio(completed, total) else Zero];
      assert dates[..k + 1] == dates[..k] + [date];
    }
    assert dates[..|dates|] == dates;
  }

  /**
   * The walk of `calculateCurrentStreak`: count the dates, most recent
   * first, whose rate is 1, and stop at the first that is not.
   */
  method CountPerfectRun(sortedDates: seq<int>, dailyRates: map<int, Rate>) returns (streak: nat)
    requires forall k :: 0 <= k < |sortedDates| ==> sortedDates[k] in dailyRates
    ensures streak <= |sortedDates|
    ensures forall k :: 0 <= k < streak ==> IsOne(dailyRates[sortedDates[k]])
    ensures streak < |sortedDates| ==> !IsOne(dailyRates[sortedDates[streak]])
  {
    streak := 0;
    var j := 0;
    while j < |sortedDates|
      invariant 0 <= j <= |sortedDates|
      invariant streak == j
      invariant forall k :: 0 <= k < j ==> IsOne(dailyRates[sortedDates[k]])
    {
      var date := sortedDates[j];
      if IsOne(dailyRates[date]) {
        streak := streak + 1;
      } else {
        break;
      }
      j := j + 1;
    }
  }

  /** A date's rate is 1 exactly when the date is perfect. */
  lemma RatesMarkPerfectDays(taskLogs: seq<Log>, logsByDate: map<int, seq<Log>>, dailyRates: map<int, Rate>)
    requires logsByDate.Keys == Dates(taskLogs)
    requires forall d :: d in logsByDate ==> logsByDate[d] == LogsOn(taskLogs, d)
    requires forall d :: d in dailyRates <==> d in logsByDate
    requires forall d :: d in dailyRates ==> dailyRates[d] == DayRate(logsByDate[d])
    ensures forall d :: d in dailyRates ==> (IsOne(dailyRates[d]) <==> PerfectDay(taskLogs, d))
  {
    forall d | d in dailyRates ensures IsOne(dailyRates[d]) <==> PerfectDay(taskLogs, d) {
      DayRateOneIffPerfect(taskLogs, d);
    }
  }

  /**
   * `calculateCurrentStreak`: group the logs by due date, compute each
   * date's completion rate, then walk the dates from the most recent and
   * count the days at 100% until the first one that is not.
   */
  method CalculateCurrentStreak(taskLogs: seq<Log>) returns (streak: nat)
    ensures streak == Streak(taskLogs)
    ensures taskLogs == [] ==> streak == 0
    ensures streak <= |Dates(taskLogs)|
  {
    if |taskLogs| == 0 {
      StreakOfNoLogs();
      return 0;
    }
    var logsByDate, dates := GroupByDate(taskLogs);
    var dailyRates := DailyRates(logsByDate, dates);

    // Object.keys(dailyRates) is `dates`
    var sortedDates := MostRecentFirst(dates);
    streak := CountPerfectRun(sortedDates, dailyRates);
    RatesMarkPerfectDays(taskLogs, logsByDate, dailyRates);
    StreakIsPrefixRun(taskLogs, sortedDates, streak);
  }
}
