/**
 * The Weekly Review page: per-goal statistics for the current week, the
 * suggestion shown for them, the colour of the percentage, the map of
 * saved reviews and the rule that enables the submit button.
 */
module WeeklyReview {
  import opened Records
  import opened Stats
  import Dashboard

  // ---------------------------------------------------------------------
  // calculateWeeklyStats
  // ---------------------------------------------------------------------

  datatype WeekStats = WeekStats(completed: nat, total: nat, percentage: nat)

  /** The task's logs due in the week; a task without `task_logs` has none. */
  function TaskWeekLogs(task: Task, weekStart: int): (r: seq<Log>)
    ensures task.logs.None? ==> r == []
    ensures task.logs.Some? ==> forall l :: l in r <==> l in task.logs.value && InWeek(l.dueDay, weekStart)
  {
    match task.logs
    case None => []
    case Some(logs) => WeekLogs(logs, weekStart)
  }

  /** The in-week logs summed over the tasks, in `forEach` order. */
  function WeekTotal(tasks: seq<Task>, weekStart: int): nat {
    if tasks == [] then 0
    else WeekTotal(tasks[..|tasks| - 1], weekStart) + |TaskWeekLogs(tasks[|tasks| - 1], weekStart)|
  }

  /** The completed in-week logs summed over the tasks; never more than the total. */
  function WeekCompleted(tasks: seq<Task>, weekStart: int): (r: nat)
    ensures r <= WeekTotal(tasks, weekStart)
  {
    if tasks == [] then 0
    else WeekCompleted(tasks[..|tasks| - 1], weekStart) + CompletedCount(TaskWeekLogs(tasks[|tasks| - 1], weekStart))
  }

  /** What `calculateWeeklyStats(goal)` returns for the week starting `weekStart`. */
  function WeeklyStats(goal: Goal, weekStart: int): (stats: WeekStats)
    ensures stats.completed <= stats.total && stats.percentage <= 100
    ensures goal.tasks.None? || goal.tasks == Some([]) ==> stats == WeekStats(0, 0, 0)
    ensures goal.tasks.Some? ==>
      stats.total == WeekTotal(goal.tasks.value, weekStart) &&
      stats.completed == WeekCompleted(goal.tasks.value, weekStart)
    ensures stats.total == 0 ==> stats.percentage == 0
    ensures stats.total > 0 ==> IsRoundedPercent(stats.percentage, stats.completed, stats.total)
  {
    match goal.tasks
    case None => WeekStats(0, 0, 0)
    case Some(tasks) =>
      var total := WeekTotal(tasks, weekStart);
      var completed := WeekCompleted(tasks, weekStart);
      WeekStats(completed, total, if total > 0 then RoundPercent(completed, total) else 0)
  }

  /** Taking one more task adds its in-week logs to both counts. */
  lemma WeekCountsStep(tasks: seq<Task>, i: nat, weekStart: int)
    requires i < |tasks|
    ensures WeekTotal(tasks[..i + 1], weekStart) == WeekTotal(tasks[..i], weekStart) + |TaskWeekLogs(tasks[i], weekStart)|
    ensures WeekCompleted(tasks[..i + 1], weekStart)
         == WeekCompleted(tasks[..i], weekStart) + CompletedCount(TaskWeekLogs(tasks[i], weekStart))
  {
    assert tasks[..i + 1][..i] == tasks[..i];
  }

  /**
   * `calculateWeeklyStats`: one pass over the goal's tasks adding each
   * task's in-week logs to `total` and its completed ones to `completed`.
   * `weekStart` is the Monday of the week containing `today`.
   */
  method CalculateWeeklyStats(goal: Goal, today: int) returns (stats: WeekStats)
    ensures stats == WeeklyStats(goal, WeekStart(today))
    ensures stats.completed <= stats.total && stats.percentage <= 100
    ensures goal.tasks.None? || goal.tasks == Some([]) ==> stats == WeekStats(0, 0, 0)
  {
    var weekStart := WeekStart(today);
    if goal.tasks.None? || |goal.tasks.value| == 0 {
      return WeekStats(0, 0, 0);
    }
    var tasks := goal.tasks.value;
    var completed: nat := 0;
    var total: nat := 0;
    for i := 0 to |tasks|
      invariant total == WeekTotal(tasks[..i], weekStart)
      invariant completed == WeekCompleted(tasks[..i], weekStart)
    {
      var task := tasks[i];
      if task.logs.Some? {
        var weekLogs := WeekLogs(task.logs.value, weekStart);
        total := total + |weekLogs|;
        completed := completed + CompletedCount(weekLogs);
      }
      WeekCountsStep(tasks, i, weekStart);
    }
    assert tasks[..|tasks|] == tasks;
    var percentage := if total > 0 then RoundPercent(completed, total) else 0;
    stats := WeekStats(completed, total, percentage);
  }

  lemma {:induction false} WeekLogsAppend(a: seq<Log>, b: seq<Log>, weekStart: int)
    ensures WeekLogs(a + b, weekStart) == WeekLogs(a, weekStart) + WeekLogs(b, weekStart)
    decreases |b|
  {
    if b == [] {
      assert a + b == a;
    } else {
      var b' := b[..|b| - 1];
      assert (a + b)[..|a + b| - 1] == a + b';
      WeekLogsAppend(a, b', weekStart);
    }
  }

  /** The per-goal counts are those of the goal's logs taken as one list. */
  lemma {:induction false} WeekCountsOfAllLogs(tasks: seq<Task>, weekStart: int)
    ensures WeekTotal(tasks, weekStart) == |WeekLogs(AllLogs(tasks), weekStart)|
    ensures WeekCompleted(tasks, weekStart) == CompletedCount(WeekLogs(AllLogs(tasks), weekStart))
  {
    if tasks != [] {
      var init, last := tasks[..|tasks| - 1], tasks[|tasks| - 1];
      WeekCountsOfAllLogs(init, weekStart);
      WeekLogsAppend(AllLogs(init), last.logs.GetOr([]), weekStart);
      CompletedCountAppend(WeekLogs(AllLogs(init), weekStart), WeekLogs(last.logs.GetOr([]), weekStart));
    }
  }

  /**
   * The review page's filter on instants: `new Date(log.due_date)` reads
   * the date-only string as UTC midnight, while `weekStart` and `weekEnd`
   * are local; `weekEnd` is the last millisecond before the next local
   * Monday.
   */
  predicate ReviewKeepsLog(day: int, weekStart: int, utcOffset: int) {
    weekStart * MinutesPerDay - utcOffset <= day * MinutesPerDay < (weekStart + 7) * MinutesPerDay - utcOffset
  }

  /**
   * For real offsets (less than a day either way) the review page keeps
   * Monday to Sunday when local time is at or ahead of UTC, and Tuesday to
   * the following Monday when it is behind. `WeeklyStats` models the first
   * case.
   */
  lemma ReviewWindow(day: int, weekStart: int, utcOffset: int)
    requires -MinutesPerDay < utcOffset < MinutesPerDay
    ensures utcOffset >= 0 ==> (ReviewKeepsLog(day, weekStart, utcOffset) <==> InWeek(day, weekStart))
    ensures utcOffset < 0 ==> (ReviewKeepsLog(day, weekStart, utcOffset) <==> InWeek(day, weekStart + 1))
  {
  }

  /**
   * At UTC-5 on Sunday 2024-01-14 (day 19736), the two pages disagree on
   * Monday 2024-01-08 (day 19730) and on Monday 2024-01-15 (day 19737).
   */
  lemma WindowsDisagreeWestOfUtc()
    ensures WeekStart(19736) == 19730 && DayOfWeek(19736) == 0
    ensures Dashboard.DashboardKeepsLog(19730, WeekStart(19736), -300) && !ReviewKeepsLog(19730, WeekStart(19736), -300)
    ensures !Dashboard.DashboardKeepsLog(19737, WeekStart(19736), -300) && ReviewKeepsLog(19737, WeekStart(19736), -300)
  {
  }

  /**
   * The review page's percentage for a goal is the Dashboard's "This Week"
   * percentage computed over that goal's logs alone. Both sides use the
   * day window `InWeek`, which is the review page's filter only where local
   * time is at or ahead of UTC (`ReviewWindow`); west of UTC the pages
   * disagree (`WindowsDisagreeWestOfUtc`).
   */
  lemma WeeklyStatsAgreesWithDashboard(goal: Goal, today: int)
    requires goal.tasks.Some?
    ensures WeeklyStats(goal, WeekStart(today)).percentage
         == Dashboard.WeeklyCompletion(AllLogs(goal.tasks.value), today)
  {
    WeekCountsOfAllLogs(goal.tasks.value, WeekStart(today));
  }

  // ---------------------------------------------------------------------
  // Suggestions and colours
  // ---------------------------------------------------------------------

  /** The four suggestion levels, from the best to the worst. */
  datatype Tier = Excellent | Good | RoomForImprovement | SignificantImprovement

  /** The level a weekly percentage falls into: thresholds 90, 70 and 50. */
  function SuggestionTier(percentage: int): (t: Tier)
    ensures t == Excellent <==> percentage >= 90
    ensures t == Good <==> 70 <= percentage < 90
    ensures t == RoomForImprovement <==> 50 <= percentage < 70
    ensures t == SignificantImprovement <==> percentage < 50
  {
    if percentage >= 90 then Excellent
    else if percentage >= 70 then Good
    else if percentage >= 50 then RoomForImprovement
    else SignificantImprovement
  }

  function TierRank(t: Tier): nat {
    match t
    case SignificantImprovement => 0
    case RoomForImprovement => 1
    case Good => 2
    case Excellent => 3
  }

  /** A higher percentage never gets a worse suggestion level. */
  lemma SuggestionTierMonotone(p: int, q: int)
    requires p <= q
    ensures TierRank(SuggestionTier(p)) <= TierRank(SuggestionTier(q))
  {
  }

  const ExcellentSuggestion := "Excellent execution! Consider adding more challenging lead measures or increasing frequency."
  const GoodSuggestion := "Good progress! Look for small optimizations to reach 90%+ consistency."
  const RoomSuggestion := "Room for improvement. Consider simplifying your lead measures or adjusting frequency."
  const SignificantSuggestion := "Significant improvement needed. You might be overcommitting - try focusing on fewer, simpler tasks."

  /** `generateSuggestions(stats)`: the text stored with a saved review. */
  function GenerateSuggestions(stats: WeekStats): (s: string)
    ensures s != ""
    ensures s == ExcellentSuggestion <==> stats.percentage >= 90
    ensures s == GoodSuggestion <==> 70 <= stats.percentage < 90
    ensures s == RoomSuggestion <==> 50 <= stats.percentage < 70
    ensures s == SignificantSuggestion <==> stats.percentage < 50
  {
    match SuggestionTier(stats.percentage)
    case Excellent => ExcellentSuggestion
    case Good => GoodSuggestion
    case RoomForImprovement => RoomSuggestion
    case SignificantImprovement => SignificantSuggestion
  }

  /** Two weeks get the same generated text exactly when they are on the same level. */
  lemma GeneratedTextIdentifiesTier(s1: WeekStats, s2: WeekStats)
    ensures GenerateSuggestions(s1) == GenerateSuggestions(s2)
        <==> SuggestionTier(s1.percentage) == SuggestionTier(s2.percentage)
  {
  }

  const ExcellentFallback := "Excellent execution! Consider adding more challenging lead measures."
  const GoodFallback := "Good progress! Look for small optimizations to reach 90%+ consistency."
  const RoomFallback := "Room for improvement. Consider simplifying your lead measures."
  const SignificantFallback := "Significant improvement needed. You might be overcommitting - try focusing on fewer tasks."

  /** The card's own text for a goal with no stored suggestion. */
  function CardFallback(percentage: nat): (s: string)
    ensures s == ExcellentFallback <==> percentage >= 90
    ensures s == GoodFallback <==> 70 <= percentage < 90
    ensures s == RoomFallback <==> 50 <= percentage < 70
    ensures s == SignificantFallback <==> percentage < 50
  {
    match SuggestionTier(percentage)
    case Excellent => ExcellentFallback
    case Good => GoodFallback
    case RoomForImprovement => RoomFallback
    case SignificantImprovement => SignificantFallback
  }

  /**
   * `existingReview?.auto_suggestions || fallback`: a stored suggestion is
   * shown unless it is missing or empty.
   */
  function CardSuggestion(existingReview: Option<Review>, stats: WeekStats): (s: string)
    ensures (existingReview.Some? && existingReview.value.autoSuggestions.Some?
             && existingReview.value.autoSuggestions.value != "")
        ==> s == existingReview.value.autoSuggestions.value
    ensures (existingReview.None? || existingReview.value.autoSuggestions.None?
             || existingReview.value.autoSuggestions.value == "")
        ==> s == CardFallback(stats.percentage)
  {
    match existingReview
    case Some(Review(_, _, _, _, _, _, Some(stored))) =>
      if stored != "" then stored else CardFallback(stats.percentage)
    case _ => CardFallback(stats.percentage)
  }

  /** The card's fallback and the generated text always agree on the level. */
  lemma FallbackAgreesWithGenerated(stats: WeekStats)
    ensures var t := SuggestionTier(stats.percentage);
      (t == Excellent ==> GenerateSuggestions(stats) == ExcellentSuggestion && CardFallback(stats.percentage) == ExcellentFallback)
      && (t == Good ==> GenerateSuggestions(stats) == GoodSuggestion && CardFallback(stats.percentage) == GoodFallback)
      && (t == RoomForImprovement ==> GenerateSuggestions(stats) == RoomSuggestion && CardFallback(stats.percentage) == RoomFallback)
      && (t == SignificantImprovement ==> GenerateSuggestions(stats) == SignificantSuggestion && CardFallback(stats.percentage) == SignificantFallback)
  {
  }

  const Green := "text-green-400"
  const Yellow := "text-yellow-400"
  const Red := "text-red-400"

  /** The colour class of the weekly percentage: thresholds 80 and 60. */
  function PercentageColour(percentage: nat): (c: string)
    ensures c == Green <==> percentage >= 80
    ensures c == Yellow <==> 60 <= percentage < 80
    ensures c == Red <==> percentage < 60
  {
    if percentage >= 80 then Green
    else if percentage >= 60 then Yellow
    else Red
  }

  /** An excellent week is green and a week needing significant improvement is red. */
  lemma ColourMatchesExtremeTiers(percentage: nat)
    ensures SuggestionTier(percentage) == Excellent ==> PercentageColour(percentage) == Green
    ensures SuggestionTier(percentage) == SignificantImprovement ==> PercentageColour(percentage) == Red
  {
  }

  // ---------------------------------------------------------------------
  // Saved reviews
  // ---------------------------------------------------------------------

  /** A `weekly_reviews` row, with the columns the page reads and writes. */
  datatype Review = Review(
    userId: string,
    goalId: string,
    reviewDate: int,
    stayedOnTrack: Option<bool>,
    reflectionText: Option<string>,
    improvementNotes: Option<string>,
    autoSuggestions: Option<string>)

  /** The review form of one goal card. */
  datatype ReviewForm = ReviewForm(stayedOnTrack: Option<bool>, reflection: string, improvement: string)

  /** The last row of `rows` for goal `goalId`, if there is one. */
  function LastReviewFor(rows: seq<Review>, goalId: string): (r: Option<Review>)
    ensures r.Some? ==> r.value.goalId == goalId && r.value in rows
  {
    if rows == [] then None
    else if rows[|rows| - 1].goalId == goalId then Some(rows[|rows| - 1])
    else LastReviewFor(rows[..|rows| - 1], goalId)
  }

  /** There is no review for the goal exactly when no row is for it. */
  lemma {:induction false} LastReviewForNone(rows: seq<Review>, goalId: string)
    ensures LastReviewFor(rows, goalId).None? <==> forall i :: 0 <= i < |rows| ==> rows[i].goalId != goalId
  {
    if rows != [] {
      var n, init := |rows|, rows[..|rows| - 1];
      LastReviewForNone(init, goalId);
      if rows[n - 1].goalId != goalId {
        forall i | 0 <= i < n - 1 ensures init[i] == rows[i] { }
      }
    }
  }

  /** The goal's review is a row for it with no row for it after. */
  lemma {:induction false} LastReviewForIsLast(rows: seq<Review>, goalId: string)
    requires LastReviewFor(rows, goalId).Some?
    ensures exists i :: 0 <= i < |rows| && rows[i] == LastReviewFor(rows, goalId).value
                     && forall j :: i < j < |rows| ==> rows[j].goalId != goalId
  {
    var n := |rows|;
    if rows[n - 1].goalId == goalId {
      assert rows[n - 1] == LastReviewFor(rows, goalId).value;
    } else {
      var init := rows[..n - 1];
      LastReviewForIsLast(init, goalId);
      var i :| 0 <= i < |init| && init[i] == LastReviewFor(init, goalId).value
               && forall j :: i < j < |init| ==> init[j].goalId != goalId;
      assert rows[i] == init[i];
      forall j | i < j < n ensures rows[j].goalId != goalId {
        if j < n - 1 {
          assert rows[j] == init[j];
        }
      }
    }
  }

  /**
   * `reviewsData?.forEach(review => { reviewsMap[review.goal_id] = review })`:
   * each goal is mapped to its last review in fetched order.
   */
  method BuildReviewsMap(reviewsData: Option<seq<Review>>) returns (reviewsMap: map<string, Review>)
    ensures var rows := reviewsData.GetOr([]);
      forall g :: g in reviewsMap <==> LastReviewFor(rows, g).Some?
    ensures var rows := reviewsData.GetOr([]);
      forall g :: g in reviewsMap ==> LastReviewFor(rows, g) == Some(reviewsMap[g])
    ensures reviewsData.None? ==> reviewsMap == map[]
  {
    reviewsMap := map[];
    if reviewsData.None? {
      return;
    }
    var rows := reviewsData.value;
    for i := 0 to |rows|
      invariant forall g :: g in reviewsMap <==> LastReviewFor(rows[..i], g).Some?
      invariant forall g :: g in reviewsMap ==> LastReviewFor(rows[..i], g) == Some(reviewsMap[g])
    {
      var review := rows[i];
      reviewsMap := reviewsMap[review.goalId := review];
      assert rows[..i + 1][..i] == rows[..i];
    }
    assert rows[..|rows|] == rows;
  }

  /** `reviews[goal.id]` */
  function ExistingReview(reviews: map<string, Review>, goalId: string): (r: Option<Review>)
    ensures r.Some? <==> goalId in reviews
    ensures r.Some? ==> r.value == reviews[goalId]
  {
    if goalId in reviews then Some(reviews[goalId]) else None
  }

  /** The card's form is initialised from the existing review, with `??` defaults. */
  function InitialForm(existingReview: Option<Review>): (form: ReviewForm)
    ensures existingReview.None? ==> form == ReviewForm(None, "", "")
    ensures existingReview.Some? ==>
      form.stayedOnTrack == existingReview.value.stayedOnTrack &&
      form.reflection == existingReview.value.reflectionText.GetOr("") &&
      form.improvement == existingReview.value.improvementNotes.GetOr("")
  {
    match existingReview
    case None => ReviewForm(None, "", "")
    case Some(review) =>
      ReviewForm(review.stayedOnTrack, review.reflectionText.GetOr(""), review.improvementNotes.GetOr(""))
  }

  /** `disabled={saving || formData.stayedOnTrack === null}` */
  function SubmitDisabled(saving: bool, form: ReviewForm): (disabled: bool)
    ensures disabled <==> saving || form.stayedOnTrack.None?
  {
    saving || form.stayedOnTrack == None
  }

  /**
   * A card without a saved review cannot be submitted until Yes or No is
   * chosen; one whose saved review has an answer can be re-submitted at once.
   */
  lemma SubmitNeedsAnAnswer(existingReview: Option<Review>, choice: bool)
    ensures existingReview.None? ==> SubmitDisabled(false, InitialForm(existingReview))
    ensures existingReview.Some? && existingReview.value.stayedOnTrack.Some?
        ==> !SubmitDisabled(false, InitialForm(existingReview))
    ensures var form := InitialForm(existingReview);
      !SubmitDisabled(false, ReviewForm(Some(choice), form.reflection, form.improvement))
    ensures forall form :: SubmitDisabled(true, form)
  {
  }

  /** The submit button's text: saving, updating a saved review, or saving a new one. */
  function SubmitLabel(saving: bool, existingReview: Option<Review>): (text: string)
    ensures saving ==> text == "Saving..."
    ensures !saving ==> (text == "Update Review" <==> existingReview.Some?)
    ensures !saving ==> (text == "Save Review" <==> existingReview.None?)
  {
    if saving then "Saving..."
    else if existingReview.Some? then "Update Review"
    else "Save Review"
  }

  /** `goals.find(g => g.id === goalId)`: the first goal with that id. */
  function FindGoal(goals: seq<Goal>, goalId: string): (r: Option<Goal>)
    ensures r.None? <==> forall i :: 0 <= i < |goals| ==> goals[i].id != goalId
    ensures r.Some? ==> exists i :: 0 <= i < |goals| && goals[i] == r.value && r.value.id == goalId
                               && forall j :: 0 <= j < i ==> goals[j].id != goalId
  {
    if goals == [] then None
    else if goals[0].id == goalId then Some(goals[0])
    else
      var r := FindGoal(goals[1..], goalId);
      assert forall i :: 0 <= i < |goals[1..]| ==> goals[1..][i] == goals[i + 1];
      r
  }

  /** `{ ...reviewPayload, ...reviewData }` as far as the page reads it back. */
  function ReviewPayload(userId: string, goalId: string, today: int, form: ReviewForm, suggestions: string): (r: Review)
    ensures r.userId == userId && r.goalId == goalId && r.reviewDate == today
    ensures r.stayedOnTrack == form.stayedOnTrack
    ensures r.reflectionText == Some(form.reflection) && r.improvementNotes == Some(form.improvement)
    ensures r.autoSuggestions == Some(suggestions)
  {
    Review(userId, goalId, today, form.stayedOnTrack, Some(form.reflection), Some(form.improvement), Some(suggestions))
  }

  /** `setReviews(prev => ({ ...prev, [goalId]: entry }))` */
  function SaveReview(prev: map<string, Review>, goalId: string, entry: Review): (next: map<string, Review>)
    ensures next.Keys == prev.Keys + {goalId}
    ensures next[goalId] == entry
    ensures forall g :: g in prev && g != goalId ==> next[g] == prev[g]
  {
    prev[goalId := entry]
  }

  /**
   * `handleReviewSubmit(goalId, reviewData)` as seen by the reviews state.
   * `user` is the signed-in user, if any, and `upsertSucceeded` the outcome
   * of the remote upsert. A goal id not in `goals` makes
   * `calculateWeeklyStats(undefined)` throw; the error is caught and nothing
   * changes.
   */
  function SubmitReview(reviews: map<string, Review>, goals: seq<Goal>, goalId: string,
                        user: Option<string>, form: ReviewForm, today: int,
                        upsertSucceeded: bool): (next: map<string, Review>)
    ensures forall g :: g != goalId ==> (g in next <==> g in reviews)
    ensures forall g :: g != goalId && g in reviews ==> next[g] == reviews[g]
    ensures next != reviews ==> user.Some? && upsertSucceeded && FindGoal(goals, goalId).Some?
  {
    match user
    case None => reviews
    case Some(userId) =>
      match FindGoal(goals, goalId)
      case None => reviews
      case Some(goal) =>
        var stats := WeeklyStats(goal, WeekStart(today));
        var payload := ReviewPayload(userId, goalId, today, form, GenerateSuggestions(stats));
        if upsertSucceeded then SaveReview(reviews, goalId, payload) else reviews
  }

  /**
   * After a successful save, the goal's card shows the generated suggestion
   * for its week, offers "Update Review", and a card mounted afresh starts
   * from the submitted answers.
   */
  lemma SavedReviewShowsGeneratedSuggestion(reviews: map<string, Review>, goals: seq<Goal>, goalId: string,
                                            userId: string, form: ReviewForm, today: int)
    requires FindGoal(goals, goalId).Some?
    ensures var next := SubmitReview(reviews, goals, goalId, Some(userId), form, today, true);
      var stats := WeeklyStats(FindGoal(goals, goalId).value, WeekStart(today));
      && CardSuggestion(ExistingReview(next, goalId), stats) == GenerateSuggestions(stats)
      && InitialForm(ExistingReview(next, goalId)) == form
      && SubmitLabel(false, ExistingReview(next, goalId)) == "Update Review"
  {
  }
}
