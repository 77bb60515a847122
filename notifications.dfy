/** lib/notifications.ts: which tasks are critical and what the alerts say about them. The toast
    delivery itself is not modelled; the functions return what would be shown. */
module Notifications {
  import opened Wrappers
  import opened Time
  import opened Types
  import opened Seqs

  /** The deadline lies in `[now, now + 24h]`, both ends included. */
  predicate IsDueWithinDay(t: Task, now: int)
  {
    now <= t.endDate <= now + MsPerDay
  }

  predicate IsHighPriority(t: Task)
  {
    t.priority == "high"
  }

  predicate IsCritical(t: Task, now: int)
  {
    !t.completed && (IsDueWithinDay(t, now) || IsHighPriority(t))
  }

  function Critical(now: int): Task -> bool
  {
    (t: Task) => IsCritical(t, now)
  }

  /** `checkCriticalTasks` */
  function CheckCriticalTasks(tasks: seq<Task>, now: int): (r: seq<Task>)
  {
    Filter(tasks, Critical(now))
  }

  /** Critical tasks are exactly the open ones due within a day or of high priority; the result
      keeps the input order. */
  lemma CriticalTasksExact(tasks: seq<Task>, now: int)
    ensures var r := CheckCriticalTasks(tasks, now);
      && (forall t | t in r :: !t.completed)
      && (forall t :: t in r <==> t in tasks && !t.completed && (IsDueWithinDay(t, now) || IsHighPriority(t)))
      && IsSubsequence(r, tasks)
  {
    FilterIsSubsequence(tasks, Critical(now));
  }

  /** The three messages of `showCriticalTaskNotification`, with the counts they print. */
  datatype Alert = HighAndDueSoon(high: nat, dueSoon: nat) | HighOnly(high: nat) | DueSoonOnly(dueSoon: nat)

  function HighPriority(): Task -> bool
  {
    (t: Task) => IsHighPriority(t)
  }

  function DueWithinDay(now: int): Task -> bool
  {
    (t: Task) => IsDueWithinDay(t, now)
  }

  /** `showCriticalTaskNotification`: `None` when nothing would be shown. */
  function CriticalAlert(tasks: seq<Task>, now: int): (r: Option<Alert>)
  {
    var critical := CheckCriticalTasks(tasks, now);
    if |critical| == 0 then None
    else
      var high := |Filter(critical, HighPriority())|;
      var dueSoon := |Filter(critical, DueWithinDay(now))|;
      if high > 0 && dueSoon > 0 then Some(HighAndDueSoon(high, dueSoon))
      else if high > 0 then Some(HighOnly(high))
      else if dueSoon > 0 then Some(DueSoonOnly(dueSoon))
      else None
  }

  lemma {:induction false} NonEmptyFilter<T>(s: seq<T>, p: T -> bool, x: T)
    requires x in s && p(x)
    ensures |Filter(s, p)| > 0
  {
  }

  /** An alert is shown exactly when some task is critical; the message is chosen by which of the
      two counts are positive, and the counts it prints are the numbers of critical tasks of high
      priority and of critical tasks due within a day. */
  lemma {:induction false} AlertIffCritical(tasks: seq<Task>, now: int)
    ensures CriticalAlert(tasks, now).Some? <==> |CheckCriticalTasks(tasks, now)| > 0
    ensures match CriticalAlert(tasks, now)
      case None => true
      case Some(HighAndDueSoon(h, d)) =>
        && h == |Filter(CheckCriticalTasks(tasks, now), HighPriority())| > 0
        && d == |Filter(CheckCriticalTasks(tasks, now), DueWithinDay(now))| > 0
      case Some(HighOnly(h)) =>
        && h == |Filter(CheckCriticalTasks(tasks, now), HighPriority())| > 0
        && |Filter(CheckCriticalTasks(tasks, now), DueWithinDay(now))| == 0
      case Some(DueSoonOnly(d)) =>
        && d == |Filter(CheckCriticalTasks(tasks, now), DueWithinDay(now))| > 0
        && |Filter(CheckCriticalTasks(tasks, now), HighPriority())| == 0
  {
    var critical := CheckCriticalTasks(tasks, now);
    if |critical| > 0 {
      var t := critical[0];
      assert t in critical;
      assert IsDueWithinDay(t, now) || IsHighPriority(t);
      if IsHighPriority(t) {
        NonEmptyFilter(critical, HighPriority(), t);
      } else {
        NonEmptyFilter(critical, DueWithinDay(now), t);
      }
    }
  }

  /** The suffix after each task in the login alert. */
  datatype Urgency = HighPriorityNote | DueTodayNote | DueTomorrowNote | NoNote

  /** High priority wins over due today, which wins over due tomorrow. `dayOf` is the local
      calendar day of a timestamp, as `toDateString` compares it. */
  function UrgencyNote(t: Task, now: int, dayOf: int -> int): (u: Urgency)
    ensures u == HighPriorityNote <==> IsHighPriority(t)
    ensures u == DueTodayNote <==> !IsHighPriority(t) && dayOf(t.endDate) == dayOf(now)
    ensures u == DueTomorrowNote <==>
      !IsHighPriority(t) && dayOf(t.endDate) != dayOf(now) && dayOf(t.endDate) == dayOf(now + MsPerDay)
  {
    if IsHighPriority(t) then HighPriorityNote
    else if dayOf(t.endDate) == dayOf(now) then DueTodayNote
    else if dayOf(t.endDate) == dayOf(now + MsPerDay) then DueTomorrowNote
    else NoNote
  }

  /** `showLoginNotification`: one line per critical task, in order, or nothing at all. */
  function LoginAlert(tasks: seq<Task>, now: int, dayOf: int -> int): (r: Option<seq<(string, Urgency)>>)
    ensures r.None? <==> CheckCriticalTasks(tasks, now) == []
    ensures r.Some? ==> |r.value| == |CheckCriticalTasks(tasks, now)|
    ensures r.Some? ==> forall i | 0 <= i < |r.value| ::
      && r.value[i].0 == CheckCriticalTasks(tasks, now)[i].title
      && r.value[i].1 == UrgencyNote(CheckCriticalTasks(tasks, now)[i], now, dayOf)
  {
    var critical := CheckCriticalTasks(tasks, now);
    if |critical| == 0 then None
    else Some(seq(|critical|, i requires 0 <= i < |critical| =>
                (critical[i].title, UrgencyNote(critical[i], now, dayOf))))
  }
}
