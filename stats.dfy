/**
 * Counting, percentage rounding and the Monday-to-Sunday week window that
 * the Dashboard and Weekly Review pages both use.
 */
module Stats {
  import opened Records

  // ---------------------------------------------------------------------
  // Counting completed logs: `logs.filter(log => log.status === 'completed').length`
  // ---------------------------------------------------------------------

  /** How many logs in `logs` are completed. */
  function CompletedCount(logs: seq<Log>): (r: nat)
    ensures r <= |logs|
    ensures r == |logs| <==> forall i :: 0 <= i < |logs| ==> IsCompleted(logs[i])
    ensures r == 0 <==> forall i :: 0 <= i < |logs| ==> !IsCompleted(logs[i])
  {
    if logs == [] then 0
    else
      var init := logs[..|logs| - 1];
      assert forall i :: 0 <= i < |init| ==> init[i] == logs[i];
      CompletedCount(init) + (if IsCompleted(logs[|logs| - 1]) then 1 else 0)
  }

  lemma {:induction false} CompletedCountAppend(a: seq<Log>, b: seq<Log>)
    ensures CompletedCount(a + b) == CompletedCount(a) + CompletedCount(b)
    decreases |b|
  {
    if b == [] {
      assert a + b == a;
    } else {
      var b' := b[..|b| - 1];
      assert (a + b)[..|a + b| - 1] == a + b';
      CompletedCountAppend(a, b');
    }
  }

  /** Replacing one log by a completed one adds at most one completed log. */
  lemma {:induction false} CompletedCountMarkOne(logs: seq<Log>, j: nat)
    requires j < |logs|
    ensures CompletedCount(logs) <= CompletedCount(logs[j := Completed(logs[j])])
                                 <= CompletedCount(logs) + 1
  {
    var logs' := logs[j := Completed(logs[j])];
    assert logs == logs[..j] + [logs[j]] + logs[j + 1..];
    assert logs' == logs[..j] + [Completed(logs[j])] + logs[j + 1..];
    CompletedCountAppend(logs[..j] + [logs[j]], logs[j + 1..]);
    CompletedCountAppend(logs[..j], [logs[j]]);
    CompletedCountAppend(logs[..j] + [Completed(logs[j])], logs[j + 1..]);
    CompletedCountAppend(logs[..j], [Completed(logs[j])]);
  }

  /** All of the tasks' logs in one list, skipping tasks without `task_logs`. */
  function AllLogs(tasks: seq<Task>): seq<Log> {
    if tasks == [] then []
    else AllLogs(tasks[..|tasks| - 1]) + tasks[|tasks| - 1].logs.GetOr([])
  }

  // ---------------------------------------------------------------------
  // Math.round((completed / total) * 100), in exact arithmetic
  // ---------------------------------------------------------------------

  /**
   * `r` is 100 * c / t rounded half-up to an integer, that is
   * r - 1/2 <= 100 * c / t < r + 1/2, multiplied out by 2 * t.
   */
  ghost predicate IsRoundedPercent(r: int, c: int, t: int)
    requires t > 0
  {
    2 * t * r <= 200 * c + t < 2 * t * (r + 1)
  }

  /** The rounded percentage of `c` out of `t`. */
  function RoundPercent(c: nat, t: nat): (r: nat)
    requires t > 0 && c <= t
    ensures IsRoundedPercent(r, c, t)
    ensures r <= 100
    ensures c == 0 ==> r == 0
    ensures c == t ==> r == 100
  {
    RoundPercentBounds(c, t);
    (200 * c + t) / (2 * t)
  }

  /** Multiplying by a non-negative factor keeps the order. */
  lemma MulLe(x: int, a: int, b: int)
    requires x >= 0 && a <= b
    ensures x * a <= x * b
  {
    assert x * b - x * a == x * (b - a);
  }

  lemma RoundPercentBounds(c: nat, t: nat)
    requires t > 0 && c <= t
    ensures var r := (200 * c + t) / (2 * t);
      && IsRoundedPercent(r, c, t) && 0 <= r <= 100
      && (c == 0 ==> r == 0) && (c == t ==> r == 100)
  {
    var n, d := 200 * c + t, 2 * t;
    var r, m := n / d, n % d;
    assert n == d * r + m && 0 <= m < d;
    assert IsRoundedPercent(r, c, t);
    if r > 100 {
      MulLe(d, 101, r);
    }
    if c == 0 && r > 0 {
      MulLe(d, 1, r);
    }
    if c == t && r < 100 {
      MulLe(d, r + 1, 100);
    }
  }

  /** Rounding to the nearest percent has one answer. */
  lemma RoundedPercentUnique(r1: int, r2: int, c: int, t: int)
    requires t > 0
    requires IsRoundedPercent(r1, c, t) && IsRoundedPercent(r2, c, t)
    ensures r1 == r2
  {
    if r1 < r2 {
      MulLe(2 * t, r1 + 1, r2);
    } else if r2 < r1 {
      MulLe(2 * t, r2 + 1, r1);
    }
  }

  /** More completed logs out of the same total never lowers the percentage. */
  lemma RoundPercentMonotone(c1: nat, c2: nat, t: nat)
    requires t > 0 && c1 <= c2 <= t
    ensures RoundPercent(c1, t) <= RoundPercent(c2, t)
  {
    var r1, r2 := RoundPercent(c1, t), RoundPercent(c2, t);
    if r2 < r1 {
      MulLe(2 * t, r2 + 1, r1);
    }
  }

  // ---------------------------------------------------------------------
  // The week containing "today": startOfWeek / endOfWeek with weekStartsOn: 1
  // ---------------------------------------------------------------------

  /** `Date.getDay()`: 0 is Sunday, 1 is Monday, ...; day 0 was a Thursday. */
  function DayOfWeek(day: int): (r: nat)
    ensures r < 7
  {
    (day + 4) % 7
  }

  /**
   * The weekday is fixed by its anchor and its step: 1970-01-01 (day 0) was
   * a Thursday, and each next day is the next weekday, Saturday wrapping to
   * Sunday.
   */
  lemma DayOfWeekAnchor(day: int)
    ensures DayOfWeek(0) == 4
    ensures DayOfWeek(day + 1) == (DayOfWeek(day) + 1) % 7
    ensures DayOfWeek(day) == 0 <==> (day - 3) % 7 == 0
  {
  }

  /** The Monday that starts the week containing `today`. */
  function WeekStart(today: int): (monday: int)
    ensures DayOfWeek(monday) == 1
    ensures monday <= today <= monday + 6
  {
    today - (today + 3) % 7
  }

  /** Any Monday whose week contains `today` is `WeekStart(today)`. */
  lemma WeekStartUnique(today: int, monday: int)
    requires DayOfWeek(monday) == 1
    requires monday <= today <= monday + 6
    ensures monday == WeekStart(today)
  {
    var w := WeekStart(today);
    assert (monday + 3) % 7 == 0 && (w + 3) % 7 == 0;
    var k := (monday + 3) / 7;
    var k' := (w + 3) / 7;
    assert monday == 7 * k - 3 && w == 7 * k' - 3;
    assert -6 <= monday - w <= 6;
  }

  /** On a Sunday the week ends today. */
  lemma SundayEndsWeek(today: int)
    requires DayOfWeek(today) == 0
    ensures WeekStart(today) + 6 == today
  {
  }

  /**
   * Minutes in a day. Where instants matter they are minutes since the
   * epoch, and a local time `utcOffset` minutes ahead of UTC puts local
   * midnight of day d at the instant `d * MinutesPerDay - utcOffset`.
   */
  const MinutesPerDay := 1440

  /** `logDate >= weekStart && logDate <= weekEnd` for whole days. */
  predicate InWeek(day: int, weekStart: int) {
    weekStart <= day <= weekStart + 6
  }

  /** The logs due in the week starting `weekStart`, in their original order. */
  function WeekLogs(logs: seq<Log>, weekStart: int): (r: seq<Log>)
    ensures |r| <= |logs|
    ensures forall l :: l in r <==> l in logs && InWeek(l.dueDay, weekStart)
  {
    if logs == [] then []
    else
      var last := logs[|logs| - 1];
      var init := logs[..|logs| - 1];
      assert logs == init + [last];
      WeekLogs(init, weekStart) + (if InWeek(last.dueDay, weekStart) then [last] else [])
  }
}
