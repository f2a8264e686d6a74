/**
 * The Tasks page's display rules: the frequency text, the status colour,
 * the action offered for a log, and how the new-task form is turned into
 * the row that is inserted.
 */
module Tasks {
  import opened Records
  import opened JsText

  // ---------------------------------------------------------------------
  // getFrequencyText
  // ---------------------------------------------------------------------

  /** The `value`s of the frequency `<select>`, in the order it lists them. */
  const FrequencyOptions: seq<string> := ["daily", "every_2_days", "weekly", "custom"]

  /** The label the `<select>` shows for each of its values. */
  const FrequencyLabels: seq<string> := ["Daily", "Every 2 days", "Weekly", "Custom"]

  /**
   * The `customDays` argument as JavaScript sees it: `undefined` when the
   * record it is read from has no `custom_days` property, `null` for a
   * stored null, or a number.
   */
  datatype DaysValue = Undefined | Null | Days(n: int)

  /** The argument passed by the All Tasks list: the row's stored `custom_days`. */
  function StoredDays(customDays: Option<int>): (v: DaysValue)
    ensures v != Undefined
    ensures v.Days? <==> customDays.Some?
    ensures customDays.Some? ==> v.n == customDays.value
  {
    match customDays
    case None => Null
    case Some(n) => Days(n)
  }

  /**
   * The argument passed by the Today's Tasks list. The log query embeds
   * only `title`, `frequency` and `goals` of the task, so
   * `taskLog.tasks?.custom_days` is `undefined` whatever the task stores.
   */
  function TodaysDays(): (v: DaysValue)
    ensures v == Undefined
  {
    Undefined
  }

  /** How `${customDays}` renders the argument. */
  function CustomDaysText(customDays: DaysValue): (s: string)
    ensures customDays == Undefined ==> s == "undefined"
    ensures customDays == Null ==> s == "null"
    ensures customDays.Days? ==> s == IntToString(customDays.n)
  {
    match customDays
    case Undefined => "undefined"
    case Null => "null"
    case Days(n) => IntToString(n)
  }

  /**
   * `getFrequencyText(frequency, customDays)`. `frequency` is `None` when
   * the log's task is missing (`taskLog.tasks?.frequency`); a value the
   * `switch` does not know, and `None`, are returned unchanged.
   */
  function FrequencyText(frequency: Option<string>, customDays: DaysValue): (r: Option<string>)
    ensures frequency == Some("daily") ==> r == Some("Daily")
    ensures frequency == Some("every_2_days") ==> r == Some("Every 2 days")
    ensures frequency == Some("weekly") ==> r == Some("Weekly")
    ensures frequency == Some("custom") ==> r == Some("Every " + CustomDaysText(customDays) + " days")
    ensures (frequency.None? || frequency.value !in FrequencyOptions) ==> r == frequency
  {
    match frequency
    case Some("daily") => Some("Daily")
    case Some("every_2_days") => Some("Every 2 days")
    case Some("weekly") => Some("Weekly")
    case Some("custom") => Some("Every " + CustomDaysText(customDays) + " days")
    case _ => frequency
  }

  /**
   * In Today's Tasks a custom task never shows its number of days: the text
   * is "Every undefined days" whatever `custom_days` the task stores, while
   * the All Tasks list shows the stored number.
   */
  lemma TodaysCustomTaskShowsUndefined(stored: Option<int>)
    ensures FrequencyText(Some("custom"), TodaysDays()) == Some("Every undefined days")
    ensures stored.Some? ==>
      FrequencyText(Some("custom"), StoredDays(stored)) == Some("Every " + IntToString(stored.value) + " days")
    ensures FrequencyText(Some("custom"), TodaysDays()) != FrequencyText(Some("custom"), StoredDays(stored))
  {
    assert "Every " + "undefined" + " days" == "Every undefined days";
    var t := CustomDaysText(StoredDays(stored));
    assert t[0] != "undefined"[0] by {
      match stored
      case None =>
      case Some(n) =>
        if n < 0 {
          assert t[0] == '-';
        } else {
          assert IsDigit(t[0]);
        }
    }
    CustomTextInjective("undefined", t);
  }

  /** The custom text names its days text exactly. */
  lemma CustomTextInjective(a: string, b: string)
    ensures "Every " + a + " days" == "Every " + b + " days" <==> a == b
  {
    if "Every " + a + " days" == "Every " + b + " days" {
      assert a == ("Every " + a + " days")[6..6 + |a|];
      assert b == ("Every " + b + " days")[6..6 + |b|];
    }
  }

  /** The list shows the form's own label for the three fixed frequencies. */
  lemma FrequencyTextMatchesFormLabels(customDays: DaysValue)
    ensures forall i :: 0 <= i < 3 ==>
      FrequencyText(Some(FrequencyOptions[i]), customDays) == Some(FrequencyLabels[i])
  {
  }

  /** The number of days can be read back from a custom frequency's text. */
  lemma CustomFrequencyTextReadsBack(n: int)
    ensures var text := FrequencyText(Some("custom"), Days(n)).value;
      |text| > 6 && text[..6] == "Every " && ParseInt(text[6..]) == Some(n)
  {
    var text := FrequencyText(Some("custom"), Days(n)).value;
    assert text == "Every " + IntToString(n) + " days";
    assert text[6..] == IntToString(n) + " days";
    ParseIntOfIntToString(n, " days");
  }

  // ---------------------------------------------------------------------
  // getStatusColor and the action shown for a log
  // ---------------------------------------------------------------------

  const CompletedClass := "status-completed"
  const MissedClass := "status-missed"
  const PendingClass := "status-pending"

  /** `getStatusColor(status)`: any status other than completed or missed looks pending. */
  function StatusColor(status: string): (c: string)
    ensures c == CompletedClass || c == MissedClass || c == PendingClass
    ensures c == CompletedClass <==> status == "completed"
    ensures c == MissedClass <==> status == "missed"
    ensures c == PendingClass <==> status != "completed" && status != "missed"
  {
    match status
    case "completed" => CompletedClass
    case "missed" => MissedClass
    case "pending" => PendingClass
    case _ => PendingClass
  }

  /** What a row of today's tasks shows on its right-hand side. */
  datatype StatusAction = CompleteButton | CompletedBadge | MissedBadge | NoAction

  /** The three `taskLog.status === ...` guards; at most one of them holds. */
  function ActionFor(status: string): (a: StatusAction)
    ensures a == CompleteButton <==> status == "pending"
    ensures a == CompletedBadge <==> status == "completed"
    ensures a == MissedBadge <==> status == "missed"
    ensures a == NoAction <==> status != "pending" && status != "completed" && status != "missed"
  {
    if status == "pending" then CompleteButton
    else if status == "completed" then CompletedBadge
    else if status == "missed" then MissedBadge
    else NoAction
  }

  /**
   * The badges agree with the colours. The Complete button only appears on
   * rows coloured as pending, but not every such row has it: a status the
   * page does not know is coloured as pending and offers nothing.
   */
  lemma ActionAgreesWithColour(status: string)
    ensures ActionFor(status) == CompletedBadge <==> StatusColor(status) == CompletedClass
    ensures ActionFor(status) == MissedBadge <==> StatusColor(status) == MissedClass
    ensures ActionFor(status) == CompleteButton ==> StatusColor(status) == PendingClass
    ensures StatusColor("overdue") == PendingClass && ActionFor("overdue") == NoAction
  {
  }

  /** A log marked complete is shown with the completed badge and colour. */
  lemma MarkCompleteShowsCompleted(log: Log)
    ensures ActionFor(Completed(log).status) == CompletedBadge
    ensures StatusColor(Completed(log).status) == CompletedClass
  {
  }

  // ---------------------------------------------------------------------
  // The new-task form and the row it inserts
  // ---------------------------------------------------------------------

  /**
   * The new-task form. `customDays` is the number input's value as text
   * (the initial number 1 reads the same as "1" to `parseInt`).
   */
  datatype TaskForm = TaskForm(title: string, goalId: string, frequency: string, customDays: string, startDate: string)

  /** The inserted `tasks` row; `customDays` is `None` for `null` (a NaN is sent as `null`). */
  datatype TaskRow = TaskRow(title: string, goalId: string, frequency: string, customDays: Option<int>, startDate: string)

  /** The form as it is first shown and after each successful insert. */
  function EmptyTaskForm(today: string): (form: TaskForm)
    ensures form.frequency == "daily" && form.customDays == "1" && form.startDate == today
    ensures form.title == "" && form.goalId == ""
  {
    TaskForm("", "", "daily", "1", today)
  }

  /**
   * `{ ...formData, custom_days: formData.frequency === 'custom' ? parseInt(formData.custom_days) : null }`
   */
  function TaskData(form: TaskForm): (row: TaskRow)
    ensures row.title == form.title && row.goalId == form.goalId
    ensures row.frequency == form.frequency && row.startDate == form.startDate
    ensures form.frequency != "custom" ==> row.customDays == None
    ensures form.frequency == "custom" ==> row.customDays == ParseInt(form.customDays)
  {
    TaskRow(form.title, form.goalId, form.frequency,
            if form.frequency == "custom" then ParseInt(form.customDays) else None,
            form.startDate)
  }

  /**
   * A custom frequency typed as the number `n` is stored as `n` and listed
   * as "Every n days"; a non-custom one is listed by its form label
   * whatever the days field holds.
   */
  lemma TaskDataRoundTrip(form: TaskForm, n: int)
    ensures form.frequency == "custom" && form.customDays == IntToString(n) ==>
      TaskData(form).customDays == Some(n) &&
      FrequencyText(Some(TaskData(form).frequency), StoredDays(TaskData(form).customDays))
        == Some("Every " + IntToString(n) + " days")
    ensures forall i :: 0 <= i < 3 && form.frequency == FrequencyOptions[i] ==>
      TaskData(form).customDays == None &&
      FrequencyText(Some(TaskData(form).frequency), StoredDays(TaskData(form).customDays)) == Some(FrequencyLabels[i])
  {
    if form.frequency == "custom" && form.customDays == IntToString(n) {
      ParseIntOfIntToString(n, "");
      assert IntToString(n) + "" == IntToString(n);
    }
  }

  /** Submitting the untouched form stores a daily task without custom days. */
  lemma EmptyFormIsDaily(today: string)
    ensures TaskData(EmptyTaskForm(today)).customDays == None
    ensures FrequencyText(Some(TaskData(EmptyTaskForm(today)).frequency), StoredDays(None)) == Some("Daily")
  {
  }

  /** Leading blanks before the number are skipped. */
  lemma CustomDaysSkipsBlanks()
    ensures TaskData(TaskForm("t", "g", "custom", " 7", "d")).customDays == Some(7)
  {
    assert " 7" == [' '] + "7";
    ParseIntSkipsWhiteSpace(' ', "7");
    assert NatToString(7) + "" == "7";
    ParseIntOfDigits(7, "");
  }

  /** Text after the digits is ignored. */
  lemma CustomDaysIgnoresTrailingText()
    ensures TaskData(TaskForm("t", "g", "custom", "12abc", "d")).customDays == Some(12)
  {
    assert NatToString(1) == "1";
    assert NatToString(12) == "12";
    assert NatToString(12) + "abc" == "12abc";
    ParseIntOfDigits(12, "abc");
  }

  /** A days field with no digits is stored as `null` and listed in All Tasks as "Every null days". */
  lemma CustomDaysWithoutDigits()
    ensures TaskData(TaskForm("t", "g", "custom", "", "d")).customDays == None
    ensures FrequencyText(Some("custom"), StoredDays(TaskData(TaskForm("t", "g", "custom", "", "d")).customDays))
         == Some("Every null days")
  {
    assert "Every " + "null" + " days" == "Every null days";
  }
}
