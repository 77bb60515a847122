/** app/calendar/page.tsx: the list of tasks beside the calendar for the selected date. */
module CalendarPage {
  import opened Wrappers
  import opened Types
  import opened Seqs
  import Time
  import Calendar

  /** A task belongs to the selected instant `selected` when it starts or ends on the same local
      day (`isSameDay`, decided by `dayOf`) or when the instant lies within its span. */
  predicate OnSelectedDate(t: Task, selected: int, dayOf: int -> int)
  {
    || dayOf(t.startDate) == dayOf(selected)
    || dayOf(t.endDate) == dayOf(selected)
    || (t.startDate <= selected <= t.endDate)
  }

  function OnSelected(selected: int, dayOf: int -> int): Task -> bool
  {
    (t: Task) => OnSelectedDate(t, selected, dayOf)
  }

  /** `selectedDateTasks`: nothing without a selected date, else the tasks of that date in list order. */
  function SelectedDateTasks(tasks: seq<Task>, date: Option<int>, dayOf: int -> int): (r: seq<Task>)
    ensures date.None? ==> r == []
  {
    if date.None? then [] else Filter(tasks, OnSelected(date.value, dayOf))
  }

  /** A task is listed exactly when one of the three conditions holds, and the list keeps the
      tasks' order. */
  lemma SelectedDateTasksExact(tasks: seq<Task>, selected: int, dayOf: int -> int, t: Task)
    ensures t in SelectedDateTasks(tasks, Some(selected), dayOf) <==> t in tasks && OnSelectedDate(t, selected, dayOf)
    ensures IsSubsequence(SelectedDateTasks(tasks, Some(selected), dayOf), tasks)
  {
    FilterIsSubsequence(tasks, OnSelected(selected, dayOf));
  }

  /** Every task the calendar draws a bar for on a day is also listed when that day's midnight is
      the selected date. */
  lemma CalendarBarsAreListed(tasks: seq<Task>, dayStart: int, dayOf: int -> int, t: Task)
    requires t in Calendar.TasksForDay(tasks, dayStart)
    ensures t in SelectedDateTasks(tasks, Some(dayStart), dayOf)
  {
  }

  /** The converse fails: with days of `MsPerDay` milliseconds, a task from 10:00 to 11:00 on
      day 1 is listed for day 1's midnight but has no bar in day 1's cell, whose test is
      `startDate <= midnight <= endDate`. */
  lemma SameDayTaskHasNoBar()
    ensures var dayOf := (x: int) => x / Time.MsPerDay;
      var midnight := Time.MsPerDay;
      var t := Task("1", "t", "", midnight + 36000000, midnight + 39600000, [], 0, 0, false, "", "");
      && t in SelectedDateTasks([t], Some(midnight), dayOf)
      && t !in Calendar.TasksForDay([t], midnight)
  {
    var dayOf := (x: int) => x / Time.MsPerDay;
    var midnight := Time.MsPerDay;
    var t := Task("1", "t", "", midnight + 36000000, midnight + 39600000, [], 0, 0, false, "", "");
    assert OnSelectedDate(t, midnight, dayOf);
  }
}
