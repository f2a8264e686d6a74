/**
 * The records the pages receive from the hosted database, reduced to the
 * fields the statistics read. A nullable JavaScript value (`goal.tasks`,
 * `task.task_logs`, `existingReview`) becomes an `Option`.
 */
module Records {

  datatype Option<+T> = None | Some(value: T) {
    /** `x ?? d`: the value, or the default when absent. */
    function GetOr(default: T): (r: T)
      ensures Some? ==> r == value
      ensures None? ==> r == default
    {
      match this
      case Some(v) => v
      case None => default
    }
  }

  /**
   * One scheduled occurrence of a task. `status` is the raw string of the
   * `status` column ("pending", "completed", "missed", or anything else the
   * backend might send); `dueDay` is the `due_date` as a day number
   * (day 0 is 1970-01-01).
   */
  datatype Log = Log(status: string, dueDay: int)

  /** A task with its nested `task_logs`, which may be missing. */
  datatype Task = Task(logs: Option<seq<Log>>)

  /** A goal with its nested `tasks`, which may be missing. */
  datatype Goal = Goal(id: string, tasks: Option<seq<Task>>)

  /** `log.status === 'completed'` */
  predicate IsCompleted(l: Log) {
    l.status == "completed"
  }

  /** The log after the "mark complete" update sets its status. */
  function Completed(l: Log): (r: Log)
    ensures IsCompleted(r) && r.dueDay == l.dueDay
  {
    Log("completed", l.dueDay)
  }
}
