/** components/task-list.tsx: the list view's filter, search, urgency sort and per-task texts. */
module TaskList {
  import opened Types
  import opened Text
  import opened Seqs

  /** The status drop-down: "all" or one status. */
  datatype StatusFilter = All | Only(status: TaskStatus)

  /** `statusOrder`: the most urgent status first. */
  function Rank(s: TaskStatus): (r: int)
    ensures 0 <= r <= 4
  {
    match s
    case Overdue => 0
    case Urgent => 1
    case Approaching => 2
    case OnTrack => 3
    case Pending => 4
  }

  /** The sort key of a task at time `now`. */
  function UrgencyKey(now: int): Task -> int
  {
    (t: Task) => Rank(GetTaskStatus(t, now))
  }

  function CompletedIs(showCompleted: bool): Task -> bool
  {
    (t: Task) => t.completed == showCompleted
  }

  /** The lower-cased title or description contains the lower-cased (untrimmed) query. */
  predicate MatchesQuery(t: Task, query: string)
  {
    Includes(Lower(t.title), Lower(query)) || Includes(Lower(t.description), Lower(query))
  }

  function Matches(query: string): Task -> bool
  {
    (t: Task) => MatchesQuery(t, query)
  }

  function StatusIs(s: TaskStatus, now: int): Task -> bool
  {
    (t: Task) => GetTaskStatus(t, now) == s
  }

  /** The three `filter` steps of `filteredAndSortedTasks`, before the sort. */
  function Selected(tasks: seq<Task>, showCompleted: bool, query: string, filter: StatusFilter, now: int): (r: seq<Task>)
  {
    var byCompletion := Filter(tasks, CompletedIs(showCompleted));
    var bySearch := if Trim(query) != [] then Filter(byCompletion, Matches(query)) else byCompletion;
    if filter.Only? && !showCompleted then Filter(bySearch, StatusIs(filter.status, now)) else bySearch
  }

  /** `filteredAndSortedTasks`: the selection, stably sorted by urgency rank. */
  function FilteredAndSorted(tasks: seq<Task>, showCompleted: bool, query: string, filter: StatusFilter, now: int): (r: seq<Task>)
  {
    SortBy(Selected(tasks, showCompleted, query, filter, now), UrgencyKey(now))
  }

  /** What the list keeps: the tasks of the requested completion state that match a non-blank
      query and, on the active list only, the chosen status; nothing else. */
  lemma {:induction false} SelectedMembers(tasks: seq<Task>, showCompleted: bool, query: string, filter: StatusFilter, now: int, t: Task)
    ensures t in Selected(tasks, showCompleted, query, filter, now) <==>
      && t in tasks
      && t.completed == showCompleted
      && (!AllWhitespace(query) ==> MatchesQuery(t, query))
      && (filter.Only? && !showCompleted ==> GetTaskStatus(t, now) == filter.status)
    ensures IsSubsequence(Selected(tasks, showCompleted, query, filter, now), tasks)
  {
    TrimEmptyIffBlank(query);
    var byCompletion := Filter(tasks, CompletedIs(showCompleted));
    var bySearch := if Trim(query) != [] then Filter(byCompletion, Matches(query)) else byCompletion;
    FilterIsSubsequence(tasks, CompletedIs(showCompleted));
    if Trim(query) != [] {
      FilterIsSubsequence(byCompletion, Matches(query));
      SubsequenceTransitive(bySearch, byCompletion, tasks);
    }
    if filter.Only? && !showCompleted {
      FilterIsSubsequence(bySearch, StatusIs(filter.status, now));
      SubsequenceTransitive(Filter(bySearch, StatusIs(filter.status, now)), bySearch, tasks);
    }
    assert t in bySearch <==> t in tasks && t.completed == showCompleted && (Trim(query) != [] ==> MatchesQuery(t, query));
  }

  /** A blank query filters nothing. */
  lemma {:induction false} BlankQueryKeepsAll(tasks: seq<Task>, showCompleted: bool, query: string, now: int)
    requires AllWhitespace(query)
    ensures Selected(tasks, showCompleted, query, All, now) == Filter(tasks, CompletedIs(showCompleted))
  {
    TrimEmptyIffBlank(query);
    assert Trim(query) == [];
  }

  /** On the completed list the status filter is ignored. */
  lemma CompletedListIgnoresStatus(tasks: seq<Task>, query: string, s: TaskStatus, now: int)
    ensures Selected(tasks, true, query, Only(s), now) == Selected(tasks, true, query, All, now)
  {
  }

  /** The list is the selection in non-decreasing rank (overdue first, pending last), equal ranks
      keep their input order, and nothing is added, duplicated or dropped. */
  lemma ListOrdered(tasks: seq<Task>, showCompleted: bool, query: string, filter: StatusFilter, now: int)
    ensures var sel, r := Selected(tasks, showCompleted, query, filter, now), FilteredAndSorted(tasks, showCompleted, query, filter, now);
      && SortedBy(r, UrgencyKey(now))
      && multiset(r) == multiset(sel)
      && (forall k :: Filter(r, KeyIs(UrgencyKey(now), k)) == Filter(sel, KeyIs(UrgencyKey(now), k)))
  {
    var sel := Selected(tasks, showCompleted, query, filter, now);
    SortBySorted(sel, UrgencyKey(now));
    forall k ensures Filter(SortBy(sel, UrgencyKey(now)), KeyIs(UrgencyKey(now), k)) == Filter(sel, KeyIs(UrgencyKey(now), k)) {
      SortByStable(sel, UrgencyKey(now), k);
    }
  }

  /** The line under each task: overdue by `n` days, due today, or `n` days remaining. */
  datatype DueText = DaysOverdue(days: nat) | DueToday | DaysRemaining(days: nat)

  function DueTextFor(daysUntilDue: int): (r: DueText)
    ensures r.DaysOverdue? <==> daysUntilDue < 0
    ensures r.DueToday? <==> daysUntilDue == 0
    ensures r.DaysOverdue? ==> r.days == -daysUntilDue
    ensures r.DaysRemaining? ==> r.days == daysUntilDue
  {
    if daysUntilDue < 0 then DaysOverdue(-daysUntilDue)
    else if daysUntilDue == 0 then DueToday
    else DaysRemaining(daysUntilDue)
  }

  /** On a started task the text and the badge agree: "days overdue" exactly on overdue tasks, and
      "Due today" only on urgent ones. */
  lemma DueTextAgreesWithStatus(t: Task, now: int)
    requires t.startDate <= now
    ensures var text, s := DueTextFor(DaysUntilDue(t.endDate, now)), GetTaskStatus(t, now);
      && (text.DaysOverdue? <==> s == Overdue)
      && (text.DueToday? ==> s == Urgent)
      && (text.DaysRemaining? && text.days > 7 <==> s == OnTrack)
  {
    StatusByDays(t.startDate, t.endDate, now);
  }

  /** The status names as the source spells them. */
  function StatusName(s: TaskStatus): string
  {
    match s
    case Overdue => "overdue"
    case Urgent => "urgent"
    case Approaching => "approaching"
    case OnTrack => "on-track"
    case Pending => "pending"
  }

  predicate IsStatusName(name: string)
  {
    name in {"overdue", "urgent", "approaching", "on-track", "pending"}
  }

  /** `getStatusLabel` */
  function StatusLabel(name: string): (r: string)
    ensures r == "Unknown" <==> !IsStatusName(name)
  {
    match name
    case "overdue" => "Overdue"
    case "urgent" => "Urgent"
    case "approaching" => "Approaching"
    case "on-track" => "On Track"
    case "pending" => "Pending"
    case _ => "Unknown"
  }

  /** `getStatusColor` */
  function StatusColor(name: string): (r: string)
    ensures r == "bg-gray-500 text-white hover:bg-gray-600" <==> !IsStatusName(name)
  {
    match name
    case "overdue" => "bg-red-500 text-white hover:bg-red-600"
    case "urgent" => "bg-orange-500 text-white hover:bg-orange-600"
    case "approaching" => "bg-amber-500 text-white hover:bg-amber-600"
    case "on-track" => "bg-emerald-500 text-white hover:bg-emerald-600"
    case "pending" => "bg-blue-500 text-white hover:bg-blue-600"
    case _ => "bg-gray-500 text-white hover:bg-gray-600"
  }

  /** Every status gets its own label and its own colour; none falls to the default. */
  lemma BadgesDistinct(s1: TaskStatus, s2: TaskStatus)
    ensures StatusLabel(StatusName(s1)) != "Unknown"
    ensures s1 != s2 ==> StatusLabel(StatusName(s1)) != StatusLabel(StatusName(s2))
    ensures s1 != s2 ==> StatusColor(StatusName(s1)) != StatusColor(StatusName(s2))
  {
  }
}
