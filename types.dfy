/** lib/types.ts: the client-side task shapes and the status every view derives from the clock. */
module Types {
  import opened Time

  /** An attachment held in the browser (`data` is the base64 payload, never interpreted). */
  datatype TaskFile = TaskFile(id: string, name: string, size: int, mimeType: string, data: string, uploadedAt: int)

  /** A client-side task. Timestamps are milliseconds. `priority` and `color` are not declared on
      the interface but are read by the notifications and the calendar; "" stands for absent. */
  datatype Task = Task(
    id: string,
    title: string,
    description: string,
    startDate: int,
    endDate: int,
    files: seq<TaskFile>,
    createdAt: int,
    updatedAt: int,
    completed: bool,
    priority: string,
    color: string)

  datatype TaskStatus = Pending | OnTrack | Approaching | Urgent | Overdue

  /** `Math.ceil((endDate - now) / (1000 * 60 * 60 * 24))`. */
  function DaysUntilDue(endDate: int, now: int): (d: int)
    ensures (d - 1) * MsPerDay < endDate - now <= d * MsPerDay
  {
    CeilDiv(endDate - now, MsPerDay)
  }

  /** `getTaskStatus`: not started yet, else bucketed by whole days left until the deadline. */
  function StatusAt(startDate: int, endDate: int, now: int): (s: TaskStatus)
  {
    var daysUntilDue := DaysUntilDue(endDate, now);
    if now < startDate then Pending
    else if daysUntilDue < 0 then Overdue
    else if daysUntilDue <= 2 then Urgent
    else if daysUntilDue <= 7 then Approaching
    else OnTrack
  }

  function GetTaskStatus(task: Task, now: int): (s: TaskStatus)
  {
    StatusAt(task.startDate, task.endDate, now)
  }

  /** The buckets in terms of whole days left, with the boundaries 2 and 7 in the more urgent one. */
  lemma StatusByDays(startDate: int, endDate: int, now: int)
    ensures now < startDate ==> StatusAt(startDate, endDate, now) == Pending
    ensures now >= startDate ==>
      var d := DaysUntilDue(endDate, now);
      var s := StatusAt(startDate, endDate, now);
      && (s == Overdue <==> d < 0)
      && (s == Urgent <==> 0 <= d <= 2)
      && (s == Approaching <==> 3 <= d <= 7)
      && (s == OnTrack <==> d > 7)
  {
  }

  /** The buckets in terms of the milliseconds left, with the ceiling worked out: a task is overdue
      only once a full day has passed since its deadline, and a bucket `n` days wide ends exactly at
      `n * MsPerDay` milliseconds before the deadline. */
  lemma {:induction false} StatusByMillis(startDate: int, endDate: int, now: int)
    requires now >= startDate
    ensures var left, s := endDate - now, StatusAt(startDate, endDate, now);
      && (s == Overdue <==> left <= -MsPerDay)
      && (s == Urgent <==> -MsPerDay < left <= 2 * MsPerDay)
      && (s == Approaching <==> 2 * MsPerDay < left <= 7 * MsPerDay)
      && (s == OnTrack <==> left > 7 * MsPerDay)
  {
    var d := DaysUntilDue(endDate, now);
    var left := endDate - now;
    if d < 0 {
      assert d * MsPerDay <= -MsPerDay;
    } else if d <= 2 {
      assert (d - 1) * MsPerDay >= -MsPerDay;
      assert d * MsPerDay <= 2 * MsPerDay;
    } else if d <= 7 {
      assert (d - 1) * MsPerDay >= 2 * MsPerDay;
      assert d * MsPerDay <= 7 * MsPerDay;
    } else {
      assert (d - 1) * MsPerDay >= 7 * MsPerDay;
    }
  }

  /** A started task less than one full day past its deadline is urgent, not overdue. */
  lemma JustPastDeadlineIsUrgent(startDate: int, endDate: int, now: int)
    requires startDate <= now && endDate < now < endDate + MsPerDay
    ensures DaysUntilDue(endDate, now) == 0
    ensures StatusAt(startDate, endDate, now) == Urgent
  {
    StatusByMillis(startDate, endDate, now);
  }
}
